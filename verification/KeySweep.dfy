/**
 The expiry sweeper over both stores. A sweep stamps what the store lists as expired, and
 no client can tell whether it ran exactly when the store lists nothing too early. A row
 that the store cannot read stops every sweep that would list it.
 */
module KeySweep {
  import opened Wrappers
  import opened Timestamps
  import opened Keys
  import opened KeysSqlite
  import C = Cipher

  // What a sweep does to one key: revoked as of its own expiry.
  function SweepKey(f: Flavour, k: VirtualKey, now: Time): VirtualKey {
    if f.Due(k, now) then k.(revokedAt := k.expiresAt) else k
  }

  // A sweep of the table in which the revocation of the keys in `skip` fails.
  function Sweep(f: Flavour, t: Table, now: Time, skip: set<string>): Table {
    map id | id in t :: if id in skip then t[id] else SweepKey(f, t[id], now)
  }

  // The table once the keys in `done` have been handled.
  ghost function Partly(f: Flavour, t: Table, now: Time, skip: set<string>, done: set<string>): Table {
    map id | id in t :: if id in done && id !in skip then SweepKey(f, t[id], now) else t[id]
  }

  lemma PartlyNone(f: Flavour, t: Table, now: Time, skip: set<string>)
    ensures Partly(f, t, now, skip, {}) == t
  {
  }

  lemma PartlyNext(f: Flavour, t: Table, now: Time, skip: set<string>, done: set<string>, id: string)
    requires id in t && f.Due(t[id], now)
    ensures t[id].expiresAt.Some?
    ensures var p := Partly(f, t, now, skip, done);
            && id in p
            && Partly(f, t, now, skip, done + {id}) ==
               (if id in skip then p else p[id := RevokeUnless(p[id], t[id].expiresAt.value)])
  {
    hide TextAtMost, AtMost;
    assert SweepKey(f, t[id], now) == RevokeUnless(t[id], t[id].expiresAt.value);
    hide SweepKey, RevokeUnless, Flavour.Due;
  }

  lemma PartlyAll(f: Flavour, t: Table, now: Time, skip: set<string>, done: set<string>)
    requires forall id :: id in t && f.Due(t[id], now) ==> id in done
    ensures Partly(f, t, now, skip, done) == Sweep(f, t, now, skip)
  {
  }

  lemma RevokeAtStep(f: Flavour, t: Table, id: string, at: Time)
    requires id in t
    ensures StoreStep(f, t, RevokeAt(id, at)).0 == t[id := RevokeUnless(t[id], at)]
  {
  }

  // One pass over the in-memory store: list, then revoke each listed key as of its expiry.
  method SweepOnce(store: MemoryStore, now: Time)
    requires store.Valid()
    modifies store.Footprint()
    ensures store.Valid() && store.View() == Sweep(InMemory, old(store.View()), now, {})
  {
    hide Flavour.Due, StoreStep, Partly, Sweep, RevokeUnless, MemoryStore.Valid, MemoryStore.View;
    ghost var t := store.View();
    store.Indexed();
    var expired := store.ListExpiring(now);
    ghost var done: set<string> := {};
    PartlyNone(InMemory, t, now, {});
    for i := 0 to |expired|
      invariant store.Valid() && store.Footprint() == old(store.Footprint())
      invariant store.View() == Partly(InMemory, t, now, {}, done)
      invariant done == set j | 0 <= j < i :: expired[j].id
    {
      var k := expired[i];
      assert k in expired && InMemory.Due(k, now);
      PartlyNext(InMemory, t, now, {}, done, k.id);
      RevokeAtStep(InMemory, store.View(), k.id, k.expiresAt.value);
      var r := store.RevokeAt(k.id, k.expiresAt.value);
      done := done + {k.id};
    }
    forall id | id in t && InMemory.Due(t[id], now)
      ensures id in done
    {
      assert t[id] in expired;
    }
    PartlyAll(InMemory, t, now, {}, done);
  }

  // A sweep of the SQLite table: nothing if a row to be listed is unreadable.
  ghost function SqlSweep(c: C.Cipher, rows: Table, now: Time, failing: set<string>): Table {
    if AllReadable(c, Expiring(Sqlite, rows, now)) then Sweep(Sqlite, rows, now, failing) else rows
  }

  lemma SqlRevokeAt(c: C.Cipher, rows: Table, id: string, at: Time)
    requires id in rows
    ensures SqlStep(c, rows, RevokeAt(id, at), "").0 == rows[id := RevokeUnless(rows[id], at)]
  {
    SameTable(rows, id);
  }

  lemma ListedRow(c: C.Cipher, row: VirtualKey, k: VirtualKey)
    requires ScanRow(c, row) == One(k)
    ensures k.id == row.id && k.expiresAt == row.expiresAt
  {
  }

  // The same pass over the SQLite store. The listing fails if a row is unreadable, and the
  // revocation of the keys in `failing` fails; the sweep goes on with the next key.
  method SweepOnceSqlite(store: SqliteStore, now: Time, failing: set<string>)
    requires store.Valid()
    modifies store
    ensures store.Valid() && store.rows == SqlSweep(store.cipher, old(store.rows), now, failing)
  {
    hide Flavour.Due, SqlStep, Partly, Sweep, RevokeUnless, WellFormed, ScanRow, AllReadable, Expiring;
    ghost var t := store.rows;
    var listing := store.ListExpiring(now);
    if listing.None? {
      return;
    }
    var expired := listing.value;
    ghost var done: set<string> := {};
    PartlyNone(Sqlite, t, now, failing);
    for i := 0 to |expired|
      invariant store.Valid() && store.rows == Partly(Sqlite, t, now, failing, done)
      invariant done == set j | 0 <= j < i :: expired[j].id
    {
      var k := expired[i];
      assert k in expired;
      ListedRow(store.cipher, t[k.id], k);
      PartlyNext(Sqlite, t, now, failing, done, k.id);
      if k.id !in failing {
        SqlRevokeAt(store.cipher, store.rows, k.id, k.expiresAt.value);
        var r := store.RevokeAt(k.id, k.expiresAt.value);
      }
      done := done + {k.id};
    }
    forall id | id in t && Sqlite.Due(t[id], now)
      ensures id in done
    {
      DueIsListed(store.cipher, t, now, id);
      assert ScanRow(store.cipher, t[id]).key in expired;
    }
    PartlyAll(Sqlite, t, now, failing, done);
  }

  // A due row of a listing that succeeds is readable.
  lemma DueIsListed(c: C.Cipher, rows: Table, now: Time, id: string)
    requires WellFormed(rows) && id in rows && Sqlite.Due(rows[id], now)
    requires AllReadable(c, Expiring(Sqlite, rows, now))
    ensures ScanRow(c, rows[id]).One? && ScanRow(c, rows[id]).key.id == id
  {
    hide Flavour.Due;
    assert id in Expiring(Sqlite, rows, now) && Expiring(Sqlite, rows, now)[id] == rows[id];
  }

  datatype Sweeping = Sweeping(now: Time, failing: set<string>)

  ghost function SqlSweeps(c: C.Cipher, rows: Table, runs: seq<Sweeping>): Table
    decreases runs
  {
    if runs == [] then rows else SqlSweeps(c, SqlSweep(c, rows, runs[0].now, runs[0].failing), runs[1..])
  }

  // One unreadable key that has expired and is not revoked stops every sweep from then on.
  lemma {:induction false} UnreadableStopsSweeps(c: C.Cipher, rows: Table, id: string, runs: seq<Sweeping>)
    requires id in rows && !Readable(c, rows[id])
    requires !rows[id].IsRevoked() && rows[id].expiresAt.Some?
    requires forall i :: 0 <= i < |runs| ==> EarlierSecond(rows[id].expiresAt.value, runs[i].now)
    ensures SqlSweeps(c, rows, runs) == rows
    decreases runs
  {
    hide EarlierSecond;
    if runs != [] {
      UnreadableStopsSweep(c, rows, id, runs[0].now, runs[0].failing);
      UnreadableStopsSweeps(c, rows, id, runs[1..]);
    }
  }

  lemma UnreadableStopsSweep(c: C.Cipher, rows: Table, id: string, now: Time, failing: set<string>)
    requires id in rows && !Readable(c, rows[id])
    requires !rows[id].IsRevoked() && rows[id].expiresAt.Some? && EarlierSecond(rows[id].expiresAt.value, now)
    ensures SqlSweep(c, rows, now, failing) == rows
  {
    var e := rows[id].expiresAt.value;
    BeforeTotal(e, now);
    TextAtMostAcrossSeconds(e, now);
    hide TextAtMost;
    assert id in Expiring(Sqlite, rows, now);
  }

  // After a sweep nothing that the store lists as due is left, but for failed revocations;
  // what it revoked is stamped with the expiry, and earlier stamps stay.
  lemma SweepLeavesNothingDue(f: Flavour, t: Table, now: Time, skip: set<string>, id: string)
    requires id in t
    ensures id in Sweep(f, t, now, skip)
    ensures var k, k' := t[id], Sweep(f, t, now, skip)[id];
            && (id !in skip ==> !f.Due(k', now))
            && if id in skip || !f.Due(k, now) then k' == k
               else k' == k.(revokedAt := k.expiresAt) && k'.IsRevoked() && !k.IsRevoked()
  {
    hide TextAtMost, AtMost;
  }

  // Over the in-memory store nothing that has expired stays unrevoked.
  lemma NothingExpiredStays(t: Table, now: Time, skip: set<string>, id: string)
    requires id in t && id !in skip
    ensures var k' := Sweep(InMemory, t, now, skip)[id]; k'.IsRevoked() || !k'.IsExpired(now)
  {
    hide AtMost;
  }

  // ---- What clients see --------------------------------------------------------------------------

  // The proxy's verdict on a token at time `now`.
  datatype Verdict = Unknown | Refused | Accepted

  ghost function Judge(t: Table, token: string, now: Time): Verdict {
    match ByToken(t, token)
    case None => Unknown
    case Some(k) => if k.IsRevoked() || k.IsExpired(now) then Refused else Accepted
  }

  // An unrevoked key is accepted up to its expiry and refused from that instant on; a revoked
  // one is refused.
  lemma ExpiryIsTheBoundary(t: Table, id: string, now: Time)
    requires WellFormed(t) && id in t
    ensures Judge(t, t[id].token, now) ==
            if t[id].revokedAt.None? && (t[id].expiresAt.None? || Before(now, t[id].expiresAt.value)) then Accepted
            else Refused
  {
    TokenFinds(t, id);
  }

  lemma UnknownTokenIsUnknown(t: Table, token: string, now: Time)
    requires forall id :: id in t ==> t[id].token != token
    ensures Judge(t, token, now) == Unknown
  {
    UnknownTokenNotFound(t, token);
  }

  // Requests, sweeps, the store operations of operators, and the single revocations that a
  // sweep consists of once others get in between.
  datatype Act =
    | Request(token: string, now: Time)
    | SweepAct(now: Time, skip: set<string>)
    | StoreAct(op: Op)
    | StampAct(id: string, at: Time)

  ghost function Apply(f: Flavour, t: Table, a: Act): (Table, seq<Verdict>) {
    match a
    case Request(token, now) => (t, [Judge(t, token, now)])
    case SweepAct(now, skip) => (Sweep(f, t, now, skip), [])
    case StoreAct(op) => (StoreStep(f, t, op).0, [])
    case StampAct(id, at) => (StoreStep(f, t, RevokeAt(id, at)).0, [])
  }

  ghost function Verdicts(f: Flavour, t: Table, acts: seq<Act>): seq<Verdict>
    decreases acts
  {
    if acts == [] then [] else Apply(f, t, acts[0]).1 + Verdicts(f, Apply(f, t, acts[0]).0, acts[1..])
  }

  // The keys that a sweep revokes.
  ghost function SweptIds(f: Flavour, t: Table, s: Time, skip: set<string>): set<string> {
    set id | id in t && id !in skip && f.Due(t[id], s)
  }

  // The patch leaves a key that had expired by `s` unexpired then.
  predicate Revives(patch: KeyPatch, s: Time) {
    patch.clearExpiresAt || (patch.expiresAt.Some? && !AtMost(patch.expiresAt.value, s))
  }

  // A request no earlier than `s`, or anything but a PATCH that revives one of `ids`.
  ghost predicate Later(a: Act, ids: set<string>, s: Time) {
    match a
    case Request(_, now) => AtMost(s, now)
    case StoreAct(op) => op.Update? && op.id in ids ==> !Revives(op.patch, s)
    case _ => true
  }

  ghost predicate AllLater(acts: seq<Act>, ids: set<string>, s: Time) {
    forall i :: 0 <= i < |acts| ==> Later(acts[i], ids, s)
  }

  // Refused at `s` and from then on, as long as its expiry is not moved.
  predicate Dead(k: VirtualKey, s: Time) {
    k.IsRevoked() || k.IsExpired(s)
  }

  // Keys that no request from time `s` on can tell apart.
  predicate Indistinct(a: VirtualKey, b: VirtualKey, s: Time) {
    a.id == b.id && a.token == b.token && (a == b || (Dead(a, s) && Dead(b, s)))
  }

  // Tables that differ in keys of `ids` only, and there indistinctly.
  ghost predicate IndistinctTables(t: Table, u: Table, ids: set<string>, s: Time) {
    && t.Keys == u.Keys
    && forall id :: id in t ==> Indistinct(t[id], u[id], s) && (id !in ids ==> t[id] == u[id])
  }

  lemma SweepIndistinct(f: Flavour, t: Table, s: Time, skip: set<string>)
    requires Timely(f, t, s, skip)
    ensures IndistinctTables(t, Sweep(f, t, s, skip), SweptIds(f, t, s, skip), s)
  {
    hide Flavour.Due, AtMost;
  }

  lemma JudgedAlike(a: VirtualKey, b: VirtualKey, s: Time, now: Time)
    requires Indistinct(a, b, s) && AtMost(s, now)
    ensures (a.IsRevoked() || a.IsExpired(now)) <==> (b.IsRevoked() || b.IsExpired(now))
  {
    StaysDead(a, s, now);
    StaysDead(b, s, now);
    hide AtMost, Before;
  }

  lemma StaysDead(k: VirtualKey, s: Time, now: Time)
    requires AtMost(s, now)
    ensures Dead(k, s) ==> Dead(k, now)
  {
    if k.IsExpired(s) {
      BeforeTransitive(k.expiresAt.value, s, now);
    }
  }

  lemma TokensIndistinct(t: Table, u: Table, ids: set<string>, s: Time, token: string)
    requires IndistinctTables(t, u, ids, s) && WellFormed(t) && WellFormed(u)
    ensures ByToken(t, token).Some? <==> ByToken(u, token).Some?
    ensures TokenTaken(t, token) <==> TokenTaken(u, token)
    ensures ByToken(t, token).Some? ==> Indistinct(ByToken(t, token).value, ByToken(u, token).value, s)
  {
    hide AtMost, Dead;
    if TokenTaken(t, token) {
      var id :| id in t && t[id].token == token;
      assert id in u && u[id].token == token;
    }
    if TokenTaken(u, token) {
      var id :| id in u && u[id].token == token;
      assert id in t && t[id].token == token;
    }
  }

  // Stamping and sweeping keep keys indistinct.
  lemma KeysStayIndistinct(f: Flavour, a: VirtualKey, b: VirtualKey, s: Time, at: Time)
    requires Indistinct(a, b, s)
    ensures Indistinct(f.Stamp(a, at), f.Stamp(b, at), s)
    ensures Indistinct(RevokeUnless(a, at), RevokeUnless(b, at), s)
    ensures Indistinct(SweepKey(f, a, at), SweepKey(f, b, at), s)
  {
    hide AtMost, TextAtMost;
  }

  // A key patched if it is not revoked, as Update does.
  function Patched(k: VirtualKey, patch: KeyPatch): VirtualKey {
    if k.IsRevoked() then k else patch.ApplyTo(k)
  }

  lemma PatchesStayIndistinct(a: VirtualKey, b: VirtualKey, s: Time, patch: KeyPatch)
    requires Indistinct(a, b, s) && (a != b ==> !Revives(patch, s))
    ensures Indistinct(Patched(a, patch), Patched(b, patch), s)
  {
    hide AtMost;
  }

  lemma UpdateStep(f: Flavour, t: Table, id: string, patch: KeyPatch)
    requires id in t
    ensures StoreStep(f, t, Update(id, patch)).0 == t[id := Patched(t[id], patch)]
  {
    assert t[id := t[id]] == t;
  }

  lemma PutIndistinct(t: Table, u: Table, ids: set<string>, s: Time, id: string, a: VirtualKey, b: VirtualKey)
    requires IndistinctTables(t, u, ids, s) && Indistinct(a, b, s) && (id !in ids ==> a == b)
    ensures IndistinctTables(t[id := a], u[id := b], ids, s)
  {
    hide Indistinct;
  }

  lemma SweepKeepsIndistinct(f: Flavour, t: Table, u: Table, ids: set<string>, s: Time, now: Time, skip: set<string>)
    requires IndistinctTables(t, u, ids, s)
    ensures IndistinctTables(Sweep(f, t, now, skip), Sweep(f, u, now, skip), ids, s)
  {
    hide Indistinct, SweepKey;
    forall id | id in t
      ensures Indistinct(SweepKey(f, t[id], now), SweepKey(f, u[id], now), s)
    {
      KeysStayIndistinct(f, t[id], u[id], s, now);
    }
  }

  lemma StoreKeepsIndistinct(f: Flavour, t: Table, u: Table, ids: set<string>, s: Time, op: Op)
    requires IndistinctTables(t, u, ids, s) && WellFormed(t) && WellFormed(u) && Later(StoreAct(op), ids, s)
    ensures IndistinctTables(StoreStep(f, t, op).0, StoreStep(f, u, op).0, ids, s)
  {
    hide ByToken, TokenTaken, Acceptable, WellFormed, Indistinct, AtMost, Expiring, Revives;
    hide Flavour.Stamp, RevokeUnless, Patched, KeyPatch.ApplyTo;
    match op {
      case Create(k) =>
        TokensIndistinct(t, u, ids, s, k.token);
        SameIsIndistinct(k, s);
        SameIsIndistinct(k.(revokedAt := None), s);
        PutIndistinct(t, u, ids, s, k.id, k, k);
        PutIndistinct(t, u, ids, s, k.id, k.(revokedAt := None), k.(revokedAt := None));
      case Revoke(id, now) =>
        if id in t {
          KeysStayIndistinct(f, t[id], u[id], s, now);
          PutIndistinct(t, u, ids, s, id, f.Stamp(t[id], now), f.Stamp(u[id], now));
        }
      case RevokeAt(id, at) =>
        if id in t {
          KeysStayIndistinct(f, t[id], u[id], s, at);
          PutIndistinct(t, u, ids, s, id, RevokeUnless(t[id], at), RevokeUnless(u[id], at));
        }
      case Update(id, patch) =>
        if id in t {
          UpdateStep(f, t, id, patch);
          UpdateStep(f, u, id, patch);
          PatchesStayIndistinct(t[id], u[id], s, patch);
          PutIndistinct(t, u, ids, s, id, Patched(t[id], patch), Patched(u[id], patch));
        }
      case _ =>
    }
  }

  lemma ActKeepsIndistinct(f: Flavour, t: Table, u: Table, ids: set<string>, s: Time, a: Act)
    requires IndistinctTables(t, u, ids, s) && WellFormed(t) && WellFormed(u) && Later(a, ids, s)
    ensures Apply(f, t, a).1 == Apply(f, u, a).1
    ensures IndistinctTables(Apply(f, t, a).0, Apply(f, u, a).0, ids, s)
  {
    hide ByToken, WellFormed, Indistinct, AtMost, IndistinctTables, Sweep, StoreStep;
    match a {
      case Request(token, now) =>
        TokensIndistinct(t, u, ids, s, token);
        if ByToken(t, token).Some? {
          JudgedAlike(ByToken(t, token).value, ByToken(u, token).value, s, now);
        }
      case SweepAct(now, skip) =>
        SweepKeepsIndistinct(f, t, u, ids, s, now, skip);
      case StoreAct(op) =>
        StoreKeepsIndistinct(f, t, u, ids, s, op);
      case StampAct(id, at) =>
        StoreKeepsIndistinct(f, t, u, ids, s, RevokeAt(id, at));
    }
  }

  lemma SameIsIndistinct(k: VirtualKey, s: Time)
    ensures Indistinct(k, k, s)
  {
  }

  lemma ApplyWellFormed(f: Flavour, t: Table, a: Act)
    requires WellFormed(t)
    ensures WellFormed(Apply(f, t, a).0)
  {
    if a.StoreAct? {
      StepWellFormed(f, t, a.op);
    } else if a.StampAct? {
      StepWellFormed(f, t, RevokeAt(a.id, a.at));
    } else if a.SweepAct? {
      hide Flavour.Due;
      var t' := Sweep(f, t, a.now, a.skip);
      assert forall id :: id in t ==> t'[id].id == t[id].id && t'[id].token == t[id].token;
    }
  }

  lemma {:induction false} IndistinctRuns(f: Flavour, t: Table, u: Table, ids: set<string>, s: Time, acts: seq<Act>)
    requires IndistinctTables(t, u, ids, s) && WellFormed(t) && WellFormed(u) && AllLater(acts, ids, s)
    ensures Verdicts(f, t, acts) == Verdicts(f, u, acts)
    decreases acts
  {
    hide IndistinctTables, WellFormed, Apply, Later;
    if acts != [] {
      ActKeepsIndistinct(f, t, u, ids, s, acts[0]);
      ApplyWellFormed(f, t, acts[0]);
      ApplyWellFormed(f, u, acts[0]);
      IndistinctRuns(f, Apply(f, t, acts[0]).0, Apply(f, u, acts[0]).0, ids, s, acts[1..]);
    }
  }

  // ---- When a sweep is invisible -------------------------------------------------------------------

  // Inserting the sweep at time `s` changes no verdict in a run that follows.
  ghost predicate Unseen(f: Flavour, t: Table, s: Time, skip: set<string>, acts: seq<Act>) {
    AllLater(acts, SweptIds(f, t, s, skip), s) ==>
      Verdicts(f, t, [SweepAct(s, skip)] + acts) == Verdicts(f, t, acts)
  }

  ghost predicate Invisible(f: Flavour, t: Table, s: Time, skip: set<string>) {
    forall acts :: Unseen(f, t, s, skip, acts)
  }

  // Every key that the sweep revokes has expired by then.
  ghost predicate Timely(f: Flavour, t: Table, s: Time, skip: set<string>) {
    forall id :: id in SweptIds(f, t, s, skip) ==> t[id].IsExpired(s)
  }

  lemma SweepFirst(f: Flavour, t: Table, s: Time, skip: set<string>, acts: seq<Act>)
    ensures Verdicts(f, t, [SweepAct(s, skip)] + acts) == Verdicts(f, Sweep(f, t, s, skip), acts)
  {
    assert Apply(f, t, SweepAct(s, skip)) == (Sweep(f, t, s, skip), []);
    hide Sweep, Apply;
    var run := [SweepAct(s, skip)] + acts;
    assert run[0] == SweepAct(s, skip) && run[1..] == acts;
    assert [] + Verdicts(f, Sweep(f, t, s, skip), acts) == Verdicts(f, Sweep(f, t, s, skip), acts);
  }

  lemma VerdictOnOne(f: Flavour, t: Table, token: string, now: Time)
    ensures Verdicts(f, t, [Request(token, now)]) == [Judge(t, token, now)]
  {
    var acts := [Request(token, now)];
    assert acts[1..] == [];
    assert Verdicts(f, t, []) == [];
  }

  lemma JudgeAt(t: Table, id: string, now: Time)
    requires WellFormed(t) && id in t
    ensures Judge(t, t[id].token, now) == if t[id].IsRevoked() || t[id].IsExpired(now) then Refused else Accepted
  {
    hide AtMost;
    assert TokenTaken(t, t[id].token);
  }

  // A sweep is invisible exactly when every key it revokes has expired by then.
  lemma SweepInvisibleExactly(f: Flavour, t: Table, s: Time, skip: set<string>)
    requires WellFormed(t)
    ensures Invisible(f, t, s, skip) <==> Timely(f, t, s, skip)
  {
    hide Unseen, Timely, WellFormed;
    if Timely(f, t, s, skip) {
      forall acts
        ensures Unseen(f, t, s, skip, acts)
      {
        TimelySweepHides(f, t, s, skip, acts);
      }
    } else {
      var acts := EarlySweepSeen(f, t, s, skip);
    }
  }

  lemma EarlySweepSeen(f: Flavour, t: Table, s: Time, skip: set<string>) returns (acts: seq<Act>)
    requires WellFormed(t) && !Timely(f, t, s, skip)
    ensures !Unseen(f, t, s, skip, acts)
  {
    hide Verdicts, AllLater, WellFormed, VirtualKey.IsExpired, Flavour.Due;
    var id :| id in SweptIds(f, t, s, skip) && !t[id].IsExpired(s);
    EarlySweepShows(f, t, s, skip, id);
    acts := [Request(t[id].token, s)];
  }

  lemma TimelySweepHides(f: Flavour, t: Table, s: Time, skip: set<string>, acts: seq<Act>)
    requires WellFormed(t) && Timely(f, t, s, skip)
    ensures Unseen(f, t, s, skip, acts)
  {
    hide Timely, Sweep, Verdicts, AllLater, SweptIds, WellFormed, IndistinctTables, VirtualKey.IsExpired;
    if AllLater(acts, SweptIds(f, t, s, skip), s) {
      SweepFirst(f, t, s, skip, acts);
      SweepIndistinct(f, t, s, skip);
      SweepWellFormed(f, t, s, skip);
      IndistinctRuns(f, t, Sweep(f, t, s, skip), SweptIds(f, t, s, skip), s, acts);
    }
  }

  lemma SweepWellFormed(f: Flavour, t: Table, s: Time, skip: set<string>)
    requires WellFormed(t)
    ensures WellFormed(Sweep(f, t, s, skip))
  {
    ApplyWellFormed(f, t, SweepAct(s, skip));
  }

  lemma EarlySweepShows(f: Flavour, t: Table, s: Time, skip: set<string>, id: string)
    requires WellFormed(t) && id in SweptIds(f, t, s, skip) && !t[id].IsExpired(s)
    ensures var acts := [Request(t[id].token, s)];
            && AllLater(acts, SweptIds(f, t, s, skip), s)
            && Verdicts(f, t, [SweepAct(s, skip)] + acts) == [Refused] && Verdicts(f, t, acts) == [Accepted]
  {
    var token := t[id].token;
    BeforeTotal(s, s);
    SweepFirst(f, t, s, skip, [Request(token, s)]);
    VerdictOnOne(f, t, token, s);
    VerdictOnOne(f, Sweep(f, t, s, skip), token, s);
    SweepWellFormed(f, t, s, skip);
    SweepLeavesNothingDue(f, t, s, skip, id);
    JudgeAt(t, id, s);
    JudgeAt(Sweep(f, t, s, skip), id, s);
    hide Verdicts, Judge, Sweep, WellFormed, AtMost;
  }

  // The in-memory store never lists too early.
  lemma MemorySweepIsInvisible(t: Table, s: Time, skip: set<string>)
    requires WellFormed(t)
    ensures Invisible(InMemory, t, s, skip)
  {
    hide Invisible, AtMost;
    SweepInvisibleExactly(InMemory, t, s, skip);
  }

  // A key that the SQLite store lists too early: its text comes before that of an earlier
  // instant of the same second.
  predicate ListedEarly(k: VirtualKey, s: Time) {
    !k.IsRevoked() && k.expiresAt.Some? && Misordered(s, k.expiresAt.value)
  }

  // A sweep of the SQLite store is invisible exactly when it revokes no such key.
  lemma SqliteSweepInvisibleExactly(t: Table, s: Time, skip: set<string>)
    requires WellFormed(t)
    ensures Invisible(Sqlite, t, s, skip) <==> forall id :: id in t && id !in skip ==> !ListedEarly(t[id], s)
  {
    SweepInvisibleExactly(Sqlite, t, s, skip);
    forall id | id in t
      ensures Sqlite.Due(t[id], s) && !t[id].IsExpired(s) <==> ListedEarly(t[id], s)
    {
      EarlyExactly(t[id], s);
    }
    hide Invisible, ListedEarly, Flavour.Due, AtMost, WellFormed;
  }

  lemma EarlyExactly(k: VirtualKey, s: Time)
    ensures Sqlite.Due(k, s) && !k.IsExpired(s) <==> ListedEarly(k, s)
  {
    if k.expiresAt.Some? {
      var e := k.expiresAt.value;
      TextAtMostExact(e, s);
      if Misordered(s, e) {
        MisorderedIsLater(s, e);
      }
    }
    hide TextAtMost, AtMost, Misordered;
  }

  lemma MisorderedIsLater(a: Time, b: Time)
    requires Misordered(a, b)
    ensures !AtMost(b, a)
  {
    PrefixIsSmaller(a.nano, b.nano);
  }

  // Why reviving PATCHes are excluded: one of a swept key always tells.
  lemma PatchTellsSweepsApart(f: Flavour, t: Table, s: Time, skip: set<string>, id: string, patch: KeyPatch)
    requires WellFormed(t) && id in SweptIds(f, t, s, skip) && Revives(patch, s)
    ensures var acts := [StoreAct(Update(id, patch)), Request(t[id].token, s)];
            Verdicts(f, t, [SweepAct(s, skip)] + acts) == [Refused] && Verdicts(f, t, acts) == [Accepted]
  {
    var u := Sweep(f, t, s, skip);
    var update, request := StoreAct(Update(id, patch)), Request(t[id].token, s);
    SweepFirst(f, t, s, skip, [update, request]);
    SweepWellFormed(f, t, s, skip);
    SweepLeavesNothingDue(f, t, s, skip, id);
    PatchThenAsk(f, t, s, id, patch);
    PatchThenAsk(f, u, s, id, patch);
    hide Verdicts, Sweep, WellFormed, AtMost, KeyPatch.ApplyTo;
    assert t[id].token == u[id].token;
    RevivedIsLive(t[id], patch, s);
  }

  lemma RevivedIsLive(k: VirtualKey, patch: KeyPatch, s: Time)
    requires Revives(patch, s) && !k.IsRevoked()
    ensures !patch.ApplyTo(k).IsRevoked() && !patch.ApplyTo(k).IsExpired(s)
  {
    hide AtMost;
  }

  lemma PatchThenAsk(f: Flavour, t: Table, s: Time, id: string, patch: KeyPatch)
    requires WellFormed(t) && id in t
    ensures var k := Patched(t[id], patch);
            Verdicts(f, t, [StoreAct(Update(id, patch)), Request(t[id].token, s)]) ==
            [if k.IsRevoked() || k.IsExpired(s) then Refused else Accepted]
  {
    var update, request := StoreAct(Update(id, patch)), Request(t[id].token, s);
    var t' := StoreStep(f, t, update.op).0;
    assert Apply(f, t, update) == (t', []);
    UpdateStep(f, t, id, patch);
    ApplyWellFormed(f, t, update);
    assert [update, request][1..] == [request];
    VerdictOnOne(f, t', t[id].token, s);
    JudgeAt(t', id, s);
    hide StoreStep, Apply, Judge, WellFormed, AtMost;
    assert [] + Verdicts(f, t', [request]) == Verdicts(f, t', [request]);
  }

  // ---- A sweep with others in between ------------------------------------------------------------

  // The run without the revocations of `ids` that a sweep makes.
  function Unstamped(acts: seq<Act>, ids: set<string>): seq<Act> {
    if acts == [] then []
    else (if acts[0].StampAct? && acts[0].id in ids then [] else [acts[0]]) + Unstamped(acts[1..], ids)
  }

  ghost predicate AllDead(t: Table, ids: set<string>, s: Time) {
    forall id :: id in ids ==> id in t && Dead(t[id], s)
  }

  lemma ActKeepsDead(f: Flavour, t: Table, ids: set<string>, s: Time, a: Act)
    requires AllDead(t, ids, s) && Later(a, ids, s)
    ensures AllDead(Apply(f, t, a).0, ids, s)
  {
    forall id | id in ids
      ensures id in Apply(f, t, a).0 && Dead(Apply(f, t, a).0[id], s)
    {
      KeyKeepsDead(f, t, ids, s, a, id);
    }
  }

  lemma KeyKeepsDead(f: Flavour, t: Table, ids: set<string>, s: Time, a: Act, id: string)
    requires id in ids && id in t && Dead(t[id], s) && Later(a, ids, s)
    ensures id in Apply(f, t, a).0 && Dead(Apply(f, t, a).0[id], s)
  {
    hide AtMost, TextAtMost, Acceptable, TokenTaken;
  }

  lemma StampKeepsIndistinct(f: Flavour, t: Table, u: Table, ids: set<string>, s: Time, id: string, at: Time)
    requires IndistinctTables(t, u, ids, s) && AllDead(t, ids, s) && id in ids
    ensures IndistinctTables(Apply(f, t, StampAct(id, at)).0, u, ids, s)
  {
    RevokeAtStep(f, t, id, at);
    hide StoreStep;
    SameTable(u, id);
    StampedIndistinct(t[id], u[id], s, at);
    PutIndistinct(t, u, ids, s, id, RevokeUnless(t[id], at), u[id]);
  }

  lemma StampedIndistinct(a: VirtualKey, b: VirtualKey, s: Time, at: Time)
    requires Indistinct(a, b, s) && Dead(a, s)
    ensures Indistinct(RevokeUnless(a, at), b, s)
  {
    hide AtMost;
  }

  lemma {:induction false} StampedRuns(f: Flavour, t: Table, u: Table, ids: set<string>, s: Time, acts: seq<Act>)
    requires IndistinctTables(t, u, ids, s) && WellFormed(t) && WellFormed(u) && AllDead(t, ids, s)
    requires AllLater(acts, ids, s)
    ensures Verdicts(f, t, acts) == Verdicts(f, u, Unstamped(acts, ids))
    decreases acts
  {
    hide IndistinctTables, WellFormed, Apply, Later, AllDead;
    if acts != [] {
      var a, rest := acts[0], Unstamped(acts[1..], ids);
      ApplyWellFormed(f, t, a);
      ActKeepsDead(f, t, ids, s, a);
      if a.StampAct? && a.id in ids {
        StampKeepsIndistinct(f, t, u, ids, s, a.id, a.at);
        StampedRuns(f, Apply(f, t, a).0, u, ids, s, acts[1..]);
        StampIsSilent(f, t, a);
        assert [] + rest == rest;
      } else {
        ActKeepsIndistinct(f, t, u, ids, s, a);
        ApplyWellFormed(f, u, a);
        StampedRuns(f, Apply(f, t, a).0, Apply(f, u, a).0, ids, s, acts[1..]);
        assert ([a] + rest)[1..] == rest;
      }
    }
  }

  lemma StampIsSilent(f: Flavour, t: Table, a: Act)
    requires a.StampAct?
    ensures Apply(f, t, a).1 == []
  {
  }

  // A sweep that listed `ids` at `s` can make its revocations at any later moments, with any
  // other operations in between: as long as the keys had expired and no PATCH revives one,
  // no verdict on a request from `s` on depends on any of them.
  lemma InterleavedSweepIsInvisible(f: Flavour, t: Table, ids: set<string>, s: Time, acts: seq<Act>)
    requires WellFormed(t) && AllDead(t, ids, s) && AllLater(acts, ids, s)
    ensures Verdicts(f, t, acts) == Verdicts(f, t, Unstamped(acts, ids))
  {
    hide Dead;
    assert IndistinctTables(t, t, ids, s);
    StampedRuns(f, t, t, ids, s, acts);
  }

  // With a reviving PATCH between listing and revocation the revocation still takes place:
  // the key is refused although its new expiry lies ahead.
  lemma PatchInBetweenIsLost(f: Flavour, t: Table, s: Time, skip: set<string>, id: string, patch: KeyPatch, at: Time)
    requires WellFormed(t) && id in SweptIds(f, t, s, skip) && Revives(patch, s)
    ensures var update, stamp, request := StoreAct(Update(id, patch)), StampAct(id, at), Request(t[id].token, s);
            && Verdicts(f, t, [update, stamp, request]) == [Refused]
            && Verdicts(f, t, [update, request]) == [Accepted]
  {
    var update, stamp, request := StoreAct(Update(id, patch)), StampAct(id, at), Request(t[id].token, s);
    var t' := Apply(f, t, update).0;
    var u := Apply(f, t', stamp).0;
    PatchThenAsk(f, t, s, id, patch);
    RevivedIsLive(t[id], patch, s);
    UpdateStep(f, t, id, patch);
    ApplyWellFormed(f, t, update);
    ApplyWellFormed(f, t', stamp);
    RevokeAtStep(f, t', id, at);
    JudgeAt(u, id, s);
    VerdictOnOne(f, u, t[id].token, s);
    UpdateSilent(f, t, update);
    StampIsSilent(f, t', stamp);
    hide StoreStep, Judge, WellFormed, AtMost, Apply;
    assert [update, stamp, request][1..] == [stamp, request] && [stamp, request][1..] == [request];
    assert Verdicts(f, t', [stamp, request]) == [] + Verdicts(f, u, [request]);
    assert Verdicts(f, t, [update, stamp, request]) == [] + Verdicts(f, t', [stamp, request]);
  }

  lemma UpdateSilent(f: Flavour, t: Table, a: Act)
    requires a.StoreAct?
    ensures Apply(f, t, a).1 == []
  {
  }
}
