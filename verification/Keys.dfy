/**
 Virtual keys and their two stores. Both are proved against transitions on a table
 from admin ID to key; the later modules reason about those transitions.
 */
module Keys {
  import opened Wrappers
  import opened Timestamps

  datatype VirtualKey = VirtualKey(
    id: string, token: string, name: string, upstream: string, upstreamKey: string,
    dailyBudget: real, monthBudget: real, baseURL: string,
    rps: int, rpm: int, maxConcurrent: int, timeoutSeconds: int,
    createdAt: Time, revokedAt: Option<Time>, expiresAt: Option<Time>)
  {
    predicate IsRevoked() {
      revokedAt.Some?
    }

    predicate IsExpired(now: Time) {
      expiresAt.Some? && AtMost(expiresAt.value, now)
    }
  }

  datatype KeyPatch = KeyPatch(
    name: Option<string>, dailyBudget: Option<real>, monthBudget: Option<real>, rps: Option<int>, rpm: Option<int>,
    maxConcurrent: Option<int>, baseURL: Option<string>, timeoutSeconds: Option<int>,
    expiresAt: Option<Time>, clearExpiresAt: bool)
  {
    function ApplyTo(k: VirtualKey): (r: VirtualKey)
      ensures r.id == k.id && r.token == k.token && r.upstream == k.upstream && r.upstreamKey == k.upstreamKey
      ensures r.createdAt == k.createdAt && r.revokedAt == k.revokedAt
    {
      k.(name := Or(name, k.name), dailyBudget := Or(dailyBudget, k.dailyBudget),
         monthBudget := Or(monthBudget, k.monthBudget), rps := Or(rps, k.rps), rpm := Or(rpm, k.rpm),
         maxConcurrent := Or(maxConcurrent, k.maxConcurrent), baseURL := Or(baseURL, k.baseURL),
         timeoutSeconds := Or(timeoutSeconds, k.timeoutSeconds),
         expiresAt := if clearExpiresAt then None else if expiresAt.Some? then expiresAt else k.expiresAt)
    }
  }

  function Or<T>(o: Option<T>, d: T): T {
    if o.Some? then o.value else d
  }

  // What a patched key holds: every field given reads back as given, every other field is as
  // it was; an expiry to be cleared is gone.
  ghost predicate Reflects(p: KeyPatch, k: VirtualKey, r: VirtualKey) {
    && (if p.name.Some? then r.name == p.name.value else r.name == k.name)
    && (if p.dailyBudget.Some? then r.dailyBudget == p.dailyBudget.value else r.dailyBudget == k.dailyBudget)
    && (if p.monthBudget.Some? then r.monthBudget == p.monthBudget.value else r.monthBudget == k.monthBudget)
    && (if p.rps.Some? then r.rps == p.rps.value else r.rps == k.rps)
    && (if p.rpm.Some? then r.rpm == p.rpm.value else r.rpm == k.rpm)
    && (if p.maxConcurrent.Some? then r.maxConcurrent == p.maxConcurrent.value
        else r.maxConcurrent == k.maxConcurrent)
    && (if p.baseURL.Some? then r.baseURL == p.baseURL.value else r.baseURL == k.baseURL)
    && (if p.timeoutSeconds.Some? then r.timeoutSeconds == p.timeoutSeconds.value
        else r.timeoutSeconds == k.timeoutSeconds)
    && (p.clearExpiresAt ==> r.expiresAt.None?)
    && (!p.clearExpiresAt && p.expiresAt.Some? ==> r.expiresAt == p.expiresAt)
    && (!p.clearExpiresAt && p.expiresAt.None? ==> r.expiresAt == k.expiresAt)
    && r.id == k.id && r.token == k.token && r.upstream == k.upstream && r.upstreamKey == k.upstreamKey
    && r.createdAt == k.createdAt && r.revokedAt == k.revokedAt
  }

  lemma PatchReflects(p: KeyPatch, k: VirtualKey)
    ensures Reflects(p, k, p.ApplyTo(k))
  {
  }

  // No other key does.
  lemma ReflectsUnique(p: KeyPatch, k: VirtualKey, r: VirtualKey)
    requires Reflects(p, k, r)
    ensures r == p.ApplyTo(k)
  {
  }

  // ---- Transitions on a table ------------------------------------------------------------

  type Table = map<string, VirtualKey>

  ghost predicate WellFormed(t: Table) {
    && (forall id :: id in t ==> t[id].id == id)
    && (forall i, j :: i in t && j in t && t[i].token == t[j].token ==> i == j)
  }

  predicate Acceptable(k: VirtualKey) {
    k.id != "" && k.token != "" && (k.upstream == "openai" || k.upstream == "anthropic")
  }

  ghost predicate TokenTaken(t: Table, token: string) {
    exists id :: id in t && t[id].token == token
  }

  ghost predicate Conflicts(t: Table, k: VirtualKey) {
    k.id in t || TokenTaken(t, k.token)
  }

  ghost function ByToken(t: Table, token: string): Option<VirtualKey> {
    if TokenTaken(t, token) then
      var id :| id in t && t[id].token == token;
      Some(t[id])
    else None
  }

  datatype Op =
    | Create(key: VirtualKey)
    | GetByToken(token: string)
    | GetByID(id: string)
    | List
    | Revoke(id: string, now: Time)
    | RevokeAt(id: string, at: Time)
    | ListExpiring(asOf: Time)
    | Update(id: string, patch: KeyPatch)

  datatype Outcome =
    | Rejected                       // invalid, or id or token already taken
    | NotFound
    | Unreadable                     // the stored upstream key does not decrypt
    | Revoked                        // update of a revoked key
    | Done
    | One(key: VirtualKey)
    | Many(keys: Table)

  // Where the two stores part: the stamp of a second Revoke, and the comparison of
  // expiry times.
  datatype Flavour = InMemory | Sqlite {
    function Stamp(k: VirtualKey, now: Time): VirtualKey {
      if Sqlite? && k.IsRevoked() then k else k.(revokedAt := Some(now))
    }

    predicate Due(k: VirtualKey, asOf: Time) {
      && !k.IsRevoked() && k.expiresAt.Some?
      && if InMemory? then AtMost(k.expiresAt.value, asOf) else TextAtMost(k.expiresAt.value, asOf)
    }
  }

  function RevokeUnless(k: VirtualKey, at: Time): VirtualKey {
    if k.IsRevoked() then k else k.(revokedAt := Some(at))
  }

  function Expiring(f: Flavour, t: Table, asOf: Time): Table {
    map id | id in t && f.Due(t[id], asOf) :: t[id]
  }

  // One operation on a store. SQLite inserts leave revoked_at empty.
  ghost function StoreStep(f: Flavour, t: Table, op: Op): (Table, Outcome) {
    match op
    case Create(k) =>
      if !Acceptable(k) || Conflicts(t, k) then (t, Rejected)
      else (t[k.id := if f.Sqlite? then k.(revokedAt := None) else k], Done)
    case GetByToken(token) => (t, match ByToken(t, token) case None => NotFound case Some(k) => One(k))
    case GetByID(id) => (t, if id in t then One(t[id]) else NotFound)
    case List => (t, Many(t))
    case Revoke(id, now) => if id in t then (t[id := f.Stamp(t[id], now)], Done) else (t, NotFound)
    case RevokeAt(id, at) => if id in t then (t[id := RevokeUnless(t[id], at)], Done) else (t, NotFound)
    case ListExpiring(asOf) => (t, Many(Expiring(f, t, asOf)))
    case Update(id, patch) =>
      if id !in t then (t, NotFound)
      else if t[id].IsRevoked() then (t, Revoked)
      else (t[id := patch.ApplyTo(t[id])], One(patch.ApplyTo(t[id])))
  }

  lemma StepWellFormed(f: Flavour, t: Table, op: Op)
    requires WellFormed(t)
    ensures WellFormed(StoreStep(f, t, op).0)
  {
  }

  // ---- What the operations mean -----------------------------------------------------------------

  // A created key reads back under its id and its token, unrevoked in SQLite; it is rejected
  // exactly if a field is missing, the upstream unknown, or id or token in use.
  lemma CreateReadsBack(f: Flavour, t: Table, k: VirtualKey)
    requires WellFormed(t)
    ensures var (t', r) := StoreStep(f, t, Create(k));
            var stored := if f.Sqlite? then k.(revokedAt := None) else k;
            && (r == Done <==>
                  && k.id != "" && k.token != "" && (k.upstream == "openai" || k.upstream == "anthropic")
                  && k.id !in t && forall id :: id in t ==> t[id].token != k.token)
            && (r != Done ==> r == Rejected && t' == t)
            && (r == Done ==>
                  && StoreStep(f, t', GetByID(k.id)).1 == One(stored)
                  && StoreStep(f, t', GetByToken(k.token)).1 == One(stored))
  {
    var (t', r) := StoreStep(f, t, Create(k));
    if r == Done {
      StepWellFormed(f, t, Create(k));
      TokenFinds(t', k.id);
    }
  }

  // A token finds the key that carries it.
  lemma TokenFinds(t: Table, id: string)
    requires WellFormed(t) && id in t
    ensures ByToken(t, t[id].token) == Some(t[id])
  {
    assert TokenTaken(t, t[id].token);
  }

  lemma UnknownTokenNotFound(t: Table, token: string)
    requires forall id :: id in t ==> t[id].token != token
    ensures ByToken(t, token) == None
  {
  }

  // A PATCH of an unrevoked key reads back field by field; a revoked or missing key is
  // refused.
  lemma UpdateReadsBack(f: Flavour, t: Table, id: string, p: KeyPatch)
    ensures var (t', r) := StoreStep(f, t, Update(id, p));
            && (id !in t ==> r == NotFound) && (id in t && t[id].revokedAt.Some? ==> r == Revoked)
            && if id in t && t[id].revokedAt.None? then
                 && r.One? && Reflects(p, t[id], r.key) && StoreStep(f, t', GetByID(id)).1 == r
               else t' == t
  {
    if id in t {
      PatchReflects(p, t[id]);
    }
    hide KeyPatch.ApplyTo, Reflects;
  }

  // A revocation stamps the key and nothing else of it. The time is now for the first one by
  // hand and the given one for the first by the sweeper; later ones leave the stamp, but for
  // a Revoke in memory.
  lemma RevokeReadsBack(f: Flavour, t: Table, id: string, at: Time)
    ensures var (t', r) := StoreStep(f, t, Revoke(id, at));
            var (u', q) := StoreStep(f, t, RevokeAt(id, at));
            && (id !in t ==> r == q == NotFound && t' == u' == t)
            && (id in t ==>
                  && r == q == Done && id in t' && id in u'
                  && t'[id].revokedAt == (if t[id].revokedAt.Some? && f.Sqlite? then t[id].revokedAt else Some(at))
                  && u'[id].revokedAt == (if t[id].revokedAt.Some? then t[id].revokedAt else Some(at))
                  && t'[id].(revokedAt := None) == u'[id].(revokedAt := None) == t[id].(revokedAt := None))
  {
  }

  // The key an operation writes, if any.
  function Target(op: Op): Option<string> {
    match op
    case Create(k) => Some(k.id)
    case Revoke(id, _) => Some(id)
    case RevokeAt(id, _) => Some(id)
    case Update(id, _) => Some(id)
    case _ => None
  }

  // Every other key stays as it was, and no key disappears.
  lemma OthersStay(f: Flavour, t: Table, op: Op, id: string)
    requires Target(op) != Some(id)
    ensures var t' := StoreStep(f, t, op).0;
            (id in t' <==> id in t) && (id in t ==> t'[id] == t[id])
  {
    hide KeyPatch.ApplyTo, Acceptable;
  }

  // ---- The in-memory store ------------------------------------------------------------------

  class Record {
    var key: VirtualKey

    constructor (k: VirtualKey)
      ensures key == k
    {
      key := k;
    }
  }

  class MemoryStore {
    var byID: map<string, Record>
    var byToken: map<string, Record>

    // Both maps index the same records.
    ghost predicate Valid()
      reads this, Footprint()
    {
      && (forall id :: id in byID ==> InBoth(byID[id], id, byID[id].key.token))
      && (forall tok :: tok in byToken ==>
            byToken[tok] in Footprint() && InBoth(byToken[tok], byToken[tok].key.id, tok))
    }

    // Both maps lead to the record, under its own id and token.
    ghost predicate InBoth(r: Record, id: string, tok: string)
      reads this, r
    {
      && r.key.id == id && r.key.token == tok
      && id in byID && byID[id] == r && tok in byToken && byToken[tok] == r
    }

    ghost function Footprint(): set<Record>
      reads this
    {
      set id | id in byID :: byID[id]
    }

    function View(): Table
      reads this, Footprint()
    {
      map id | id in byID :: byID[id].key
    }

    constructor ()
      ensures Valid() && View() == map[] && Footprint() == {}
    {
      byID, byToken := map[], map[];
    }

    lemma Indexed()
      requires Valid()
      ensures WellFormed(View())
      ensures forall tok :: tok in byToken <==> TokenTaken(View(), tok)
      ensures forall tok :: tok in byToken ==> ByToken(View(), tok) == Option.Some(byToken[tok].key)
    {
      forall tok
        ensures tok in byToken <==> TokenTaken(View(), tok)
      {
        if tok in byToken {
          assert View()[byToken[tok].key.id].token == tok;
        }
      }
    }

    method Create(k: VirtualKey) returns (r: Outcome)
      requires Valid()
      modifies this
      ensures Valid() && fresh(Footprint() - old(Footprint()))
      ensures (View(), r) == StoreStep(InMemory, old(View()), Op.Create(k))
    {
      hide InBoth, Acceptable, Conflicts;
      var refused := Refuses(k);
      if refused {
        return Rejected;
      }
      Insert(k);
      return Outcome.Done;
    }

    // The checks of Create.
    method Refuses(k: VirtualKey) returns (refused: bool)
      requires Valid()
      ensures refused <==> !Acceptable(k) || Conflicts(View(), k)
      ensures !refused ==> k.id !in byID && k.token !in byToken
    {
      Indexed();
      if k.id == "" || k.token == "" {
        return true;
      }
      if k.upstream != "openai" && k.upstream != "anthropic" {
        return true;
      }
      if k.id in byID {
        return true;
      }
      if k.token in byToken {
        return true;
      }
      return false;
    }

    // The copy of `k` goes under both indexes.
    method Insert(k: VirtualKey)
      requires Valid() && k.id !in byID && k.token !in byToken
      modifies this
      ensures Valid() && fresh(Footprint() - old(Footprint()))
      ensures View() == old(View())[k.id := k]
    {
      hide InBoth;
      var cp := new Record(k);
      byID := byID[k.id := cp];
      byToken := byToken[k.token := cp];
      InsertedIsValid(k, cp);
      InsertedShows(k, cp);
    }

    // `cp` holds `k` under both indexes and nothing else has changed.
    twostate predicate Inserted(k: VirtualKey, new cp: Record)
      reads this, cp, Footprint()
    {
      && k.id !in old(byID) && k.token !in old(byToken) && cp.key == k
      && byID == old(byID)[k.id := cp] && byToken == old(byToken)[k.token := cp]
      && forall id :: id in old(byID) ==> byID[id].key == old(byID[id].key)
    }

    twostate lemma InsertedIsValid(k: VirtualKey, new cp: Record)
      requires old(Valid()) && Inserted(k, cp)
      ensures Valid()
    {
      forall id | id in byID
        ensures InBoth(byID[id], id, byID[id].key.token)
      {
        if id != k.id {
          assert old(InBoth(byID[id], id, byID[id].key.token));
        }
      }
      forall tok | tok in byToken
        ensures byToken[tok] in Footprint() && InBoth(byToken[tok], byToken[tok].key.id, tok)
      {
        if tok != k.token {
          assert old(InBoth(byToken[tok], byToken[tok].key.id, tok));
        }
        assert byToken[tok] == byID[byToken[tok].key.id];
      }
    }

    twostate lemma InsertedShows(k: VirtualKey, new cp: Record)
      requires Inserted(k, cp)
      ensures View() == old(View())[k.id := k]
    {
    }

    method GetByToken(token: string) returns (r: Outcome)
      requires Valid()
      ensures r == StoreStep(InMemory, View(), Op.GetByToken(token)).1
    {
      Indexed();
      if token !in byToken {
        return NotFound;
      }
      return One(byToken[token].key);
    }

    method GetByID(id: string) returns (r: Outcome)
      requires Valid()
      ensures r == StoreStep(InMemory, View(), Op.GetByID(id)).1
    {
      if id !in byID {
        return NotFound;
      }
      return One(byID[id].key);
    }

    // In-place write through the shared record.
    method Write(id: string, k: VirtualKey)
      requires Valid() && id in byID && k.id == id && k.token == byID[id].key.token
      modifies byID[id]
      ensures Valid() && View() == old(View())[id := k]
    {
      byID[id].key := k;
      forall j | j in byID && j != id
        ensures byID[j] != byID[id]
      {
      }
    }

    method Revoke(id: string, now: Time) returns (r: Outcome)
      requires Valid()
      modifies Footprint()
      ensures Valid() && (View(), r) == StoreStep(InMemory, old(View()), Op.Revoke(id, now))
    {
      if id !in byID {
        return NotFound;
      }
      Write(id, byID[id].key.(revokedAt := Option.Some(now)));
      return Outcome.Done;
    }

    method RevokeAt(id: string, at: Time) returns (r: Outcome)
      requires Valid()
      modifies Footprint()
      ensures Valid() && (View(), r) == StoreStep(InMemory, old(View()), Op.RevokeAt(id, at))
    {
      if id !in byID {
        return NotFound;
      }
      if byID[id].key.revokedAt.Some? {
        assert View()[id := View()[id]] == View();
        return Outcome.Done;
      }
      Write(id, byID[id].key.(revokedAt := Option.Some(at)));
      return Outcome.Done;
    }

    method Update(id: string, patch: KeyPatch) returns (r: Outcome)
      requires Valid()
      modifies Footprint()
      ensures Valid() && (View(), r) == StoreStep(InMemory, old(View()), Op.Update(id, patch))
    {
      if id !in byID {
        return NotFound;
      }
      if byID[id].key.IsRevoked() {
        return Revoked;
      }
      Write(id, patch.ApplyTo(byID[id].key));
      return One(byID[id].key);
    }

    // The scan of ListExpiring, in the arbitrary order of map iteration.
    method ListExpiring(asOf: Time) returns (out: seq<VirtualKey>)
      requires Valid()
      ensures forall k :: k in out <==> k.id in View() && View()[k.id] == k && InMemory.Due(k, asOf)
      ensures forall i, j :: 0 <= i < j < |out| ==> out[i].id != out[j].id
    {
      out := [];
      var todo := byID.Keys;
      while todo != {}
        invariant todo <= byID.Keys
        invariant forall k :: k in out <==>
                    k.id in View() && k.id !in todo && View()[k.id] == k && InMemory.Due(k, asOf)
        invariant forall i, j :: 0 <= i < j < |out| ==> out[i].id != out[j].id
        decreases todo
      {
        var id :| id in todo;
        todo := todo - {id};
        var k := byID[id].key;
        if k.revokedAt.Some? || k.expiresAt.None? {
          continue;
        }
        if Before(asOf, k.expiresAt.value) {
          continue;
        }
        out := out + [k];
      }
    }
  }
}
