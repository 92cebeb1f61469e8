/**
 Re-encryption of the whole key table under a new cipher: all rows or none, and no
 plaintext lost.
 */
module Rotation {
  import opened Wrappers
  import opened Cipher

  datatype RotateResult = Rotated(rotated: nat, skipped: nat) | Failed

  datatype Planned = Planned(id: string, ciphertext: string)

  // Where a database call fails, if one does. Reading covers opening, pinging and the
  // row loop; `Write(i)` is the i-th UPDATE.
  datatype Fault = NoFault | Reading | Begin | Write(i: nat) | Verify | Commit

  // The fault hits a write transaction of `n` rows; there is none for no rows.
  predicate Breaks(fault: Fault, n: nat) {
    n > 0 && match fault
             case Begin => true
             case Write(i) => i < n
             case Verify => true
             case Commit => true
             case _ => false
  }

  // The plaintext a row stands for: as the old cipher reads it, or else the new one.
  function Meaning(oldC: Cipher, newC: Cipher, enc: string): Option<string> {
    if oldC.decrypt(enc).Some? then oldC.decrypt(enc) else newC.decrypt(enc)
  }

  ghost predicate Distinct(ids: seq<string>) {
    forall i, j :: 0 <= i < j < |ids| ==> ids[i] != ids[j]
  }

  // The rows of the table in the order the SELECT returns them.
  ghost predicate Enumerates(ids: seq<string>, table: map<string, string>) {
    Distinct(ids) && forall id :: id in ids <==> id in table
  }

  // What the plan says about one row.
  ghost predicate PlanFits(p: Planned, table: map<string, string>, oldC: Cipher, newC: Cipher) {
    && p.id in table
    && oldC.decrypt(table[p.id]).Some?
    && exists n :: newC.encrypt(oldC.decrypt(table[p.id]).value, n) == Some(p.ciphertext)
  }

  ghost function Ids(plan: seq<Planned>): seq<string> {
    seq(|plan|, i requires 0 <= i < |plan| => plan[i].id)
  }

  // The row can be carried over: re-encrypted, or already under the new cipher.
  predicate RowReady(enc: string, oldC: Cipher, newC: Cipher, nonce: string) {
    if oldC.decrypt(enc).Some? then newC.encrypt(oldC.decrypt(enc).value, nonce).Some?
    else newC.decrypt(enc).Some?
  }

  // The decrypt-and-re-encrypt pass. It writes nothing.
  method Plan(table: map<string, string>, ids: seq<string>, oldC: Cipher, newC: Cipher, nonces: seq<string>)
    returns (ok: bool, plan: seq<Planned>, skipped: nat)
    requires Enumerates(ids, table) && |nonces| == |ids|
    ensures ok <==> forall k :: 0 <= k < |ids| ==> RowReady(table[ids[k]], oldC, newC, nonces[k])
    ensures ok ==>
              && |plan| + skipped == |ids|
              && (forall i :: 0 <= i < |plan| ==> PlanFits(plan[i], table, oldC, newC))
              && Distinct(Ids(plan))
              && (forall id :: id in table && oldC.decrypt(table[id]).Some? ==> id in Ids(plan))
              && |plan| == |OpenedBy(oldC, table)|
  {
    plan, skipped := [], 0;
    for k := 0 to |ids|
      invariant |plan| + skipped == k
      invariant forall i :: 0 <= i < |plan| ==> PlanFits(plan[i], table, oldC, newC)
      invariant forall id :: id in Ids(plan) ==> id in ids[..k]
      invariant Distinct(Ids(plan))
      invariant forall j :: 0 <= j < k ==> RowReady(table[ids[j]], oldC, newC, nonces[j])
      invariant forall j :: 0 <= j < k && oldC.decrypt(table[ids[j]]).Some? ==> ids[j] in Ids(plan)
    {
      var id := ids[k];
      assert id !in ids[..k];
      assert ids[..k + 1] == ids[..k] + [id];
      var enc := table[id];
      ghost var before := plan;
      if oldC.decrypt(enc).Some? {
        var ct := newC.encrypt(oldC.decrypt(enc).value, nonces[k]);
        if ct.None? {
          return false, plan, skipped;
        }
        plan := plan + [Planned(id, ct.value)];
        assert Ids(plan) == Ids(before) + [id];
      } else if newC.decrypt(enc).Some? {
        skipped := skipped + 1;
      } else {
        return false, plan, skipped;
      }
    }
    forall id | id in table
      ensures oldC.decrypt(table[id]).Some? ==> id in Ids(plan)
    {
      assert id in ids;
      var j :| 0 <= j < |ids| && ids[j] == id;
    }
    forall id
      ensures id in Ids(plan) <==> id in OpenedBy(oldC, table)
    {
      if id in Ids(plan) {
        var i :| 0 <= i < |plan| && plan[i].id == id;
        assert PlanFits(plan[i], table, oldC, newC);
      }
    }
    DistinctCard(Ids(plan), OpenedBy(oldC, table));
    return true, plan, skipped;
  }

  // The rows that the old cipher opens.
  ghost function OpenedBy(c: Cipher, table: map<string, string>): set<string> {
    set id | id in table && c.decrypt(table[id]).Some?
  }

  lemma {:induction false} DistinctCard(ids: seq<string>, s: set<string>)
    requires Distinct(ids) && forall id :: id in ids <==> id in s
    ensures |ids| == |s|
  {
    if ids == [] {
      assert s == {};
    } else {
      var init, last := ids[..|ids| - 1], ids[|ids| - 1];
      assert ids == init + [last];
      assert last !in init;
      DistinctCard(init, s - {last});
    }
  }

  // A row after the planned writes.
  ghost function Written(table: map<string, string>, plan: seq<Planned>): map<string, string> {
    if plan == [] then table
    else Written(table, plan[..|plan| - 1])[plan[|plan| - 1].id := plan[|plan| - 1].ciphertext]
  }

  lemma {:induction false} WrittenAt(table: map<string, string>, plan: seq<Planned>, i: nat)
    requires i < |plan| && Distinct(Ids(plan))
    ensures plan[i].id in Written(table, plan) && Written(table, plan)[plan[i].id] == plan[i].ciphertext
  {
    var init := plan[..|plan| - 1];
    if i < |plan| - 1 {
      assert forall j :: 0 <= j < |init| ==> Ids(init)[j] == Ids(plan)[j];
      WrittenAt(table, init, i);
      assert Ids(plan)[i] != Ids(plan)[|plan| - 1];
    }
  }

  lemma {:induction false} UnwrittenAt(table: map<string, string>, plan: seq<Planned>, id: string)
    requires id !in Ids(plan)
    ensures id in Written(table, plan) <==> id in table
    ensures id in table ==> Written(table, plan)[id] == table[id]
  {
    if plan != [] {
      var init := plan[..|plan| - 1];
      assert Ids(plan) == Ids(init) + [plan[|plan| - 1].id];
      UnwrittenAt(table, init, id);
    }
  }

  class Database {
    var table: map<string, string>       // id -> upstream_key column

    constructor (rows: map<string, string>)
      ensures table == rows
    {
      table := rows;
    }

    // The write transaction. Only a commit makes its rows visible.
    method Apply(plan: seq<Planned>, newC: Cipher, fault: Fault) returns (ok: bool)
      requires plan != []
      requires forall i :: 0 <= i < |plan| ==> plan[i].id in table
      modifies this
      ensures !ok ==> table == old(table)
      ensures ok ==> table == Written(old(table), plan)
      ensures Distinct(Ids(plan)) ==> (ok <==> !Breaks(fault, |plan|) && newC.decrypt(plan[0].ciphertext).Some?)
    {
      assert Distinct(Ids(plan)) ==> plan[0].id in Written(table, plan) &&
                                     Written(table, plan)[plan[0].id] == plan[0].ciphertext by {
        if Distinct(Ids(plan)) {
          WrittenAt(table, plan, 0);
        }
      }
      if fault.Begin? {
        return false;
      }
      var tx := table;
      for i := 0 to |plan|
        invariant tx == Written(table, plan[..i])
        invariant fault.Write? ==> fault.i >= i
        invariant table == old(table)
      {
        if fault == Write(i) {
          return false;
        }
        tx := tx[plan[i].id := plan[i].ciphertext];
        assert plan[..i + 1][..i] == plan[..i];
      }
      assert plan[..|plan|] == plan;
      if fault.Verify? {
        return false;
      }
      var verifyID := plan[0].id;
      if verifyID !in tx {
        return false;
      }
      if newC.decrypt(tx[verifyID]).None? {
        return false;
      }
      if fault.Commit? {
        return false;
      }
      table := tx;
      return true;
    }

    // All or nothing, and meaning-preserving: on success every row opens under the new
    // cipher to the plaintext it stood for; on failure at any row or call nothing changed.
    method RotateEncryption(ids: seq<string>, oldC: Cipher, newC: Cipher, nonces: seq<string>, fault: Fault)
      returns (r: RotateResult)
      requires Enumerates(ids, table) && |nonces| == |ids| && Lawful(newC)
      modifies this
      ensures r.Failed? ==> table == old(table)
      ensures r.Rotated? <==>
                && !fault.Reading? && !Breaks(fault, |OpenedBy(oldC, old(table))|)
                && forall k :: 0 <= k < |ids| ==> RowReady(old(table)[ids[k]], oldC, newC, nonces[k])
      ensures table.Keys == old(table.Keys)
      ensures r.Rotated? ==>
                && r.rotated + r.skipped == |ids|
                && r.rotated == |OpenedBy(oldC, old(table))|
                && (r.rotated == 0 <==> forall id :: id in old(table) ==> oldC.decrypt(old(table)[id]).None?)
                && (r.rotated == 0 ==> table == old(table))
                && (forall id :: id in table ==>
                      && Meaning(oldC, newC, old(table)[id]).Some?
                      && newC.decrypt(table[id]) == Meaning(oldC, newC, old(table)[id]))
                && (Foreign(oldC, newC) ==> forall id :: id in table ==> oldC.decrypt(table[id]).None?)
    {
      if fault.Reading? {
        return Failed;
      }
      var ok, plan, skipped := Plan(table, ids, oldC, newC, nonces);
      if !ok {
        return Failed;
      }
      assert forall i :: 0 <= i < |plan| ==> Ids(plan)[i] == plan[i].id;
      if |plan| > 0 {
        assert PlanFits(plan[0], table, oldC, newC);
        assert newC.decrypt(plan[0].ciphertext).Some?;
        ok := Apply(plan, newC, fault);
        if !ok {
          return Failed;
        }
      }
      forall id | id in old(table)
        ensures Meaning(oldC, newC, old(table)[id]).Some?
      {
        var k :| 0 <= k < |ids| && ids[k] == id;
        assert RowReady(old(table)[ids[k]], oldC, newC, nonces[k]);
      }
      forall id
        ensures id in table <==> id in old(table)
        ensures id in table ==> newC.decrypt(table[id]) == Meaning(oldC, newC, old(table)[id])
        ensures id in table && Foreign(oldC, newC) ==> oldC.decrypt(table[id]).None?
      {
        RowAfter(old(table), plan, oldC, newC, id);
      }
      return Rotated(|plan|, skipped);
    }
  }

  // One row across the rotation.
  lemma RowAfter(table: map<string, string>, plan: seq<Planned>, oldC: Cipher, newC: Cipher, id: string)
    requires Lawful(newC) && Distinct(Ids(plan))
    requires forall i :: 0 <= i < |plan| ==> PlanFits(plan[i], table, oldC, newC)
    requires forall x :: x in table && oldC.decrypt(table[x]).Some? ==> x in Ids(plan)
    ensures id in Written(table, plan) <==> id in table
    ensures id in table ==> newC.decrypt(Written(table, plan)[id]) == Meaning(oldC, newC, table[id])
    ensures id in table && Foreign(oldC, newC) ==> oldC.decrypt(Written(table, plan)[id]).None?
  {
    if id in Ids(plan) {
      var i :| 0 <= i < |Ids(plan)| && Ids(plan)[i] == id;
      assert PlanFits(plan[i], table, oldC, newC);
      WrittenAt(table, plan, i);
      var n :| newC.encrypt(oldC.decrypt(table[id]).value, n) == Some(plan[i].ciphertext);
    } else {
      UnwrittenAt(table, plan, id);
    }
  }

  // Running the rotation twice: the second run has nothing to do, if the old cipher opens
  // nothing the new one writes.
  method RotateTwice(db: Database, ids: seq<string>, oldC: Cipher, newC: Cipher, nonces: seq<string>, again: seq<string>)
    returns (first: RotateResult, second: RotateResult)
    requires Enumerates(ids, db.table) && |nonces| == |ids| == |again| && Lawful(newC) && Foreign(oldC, newC)
    modifies db
    ensures first.Rotated? ==> second == Rotated(0, |ids|)
  {
    first := db.RotateEncryption(ids, oldC, newC, nonces, NoFault);
    if first.Rotated? {
      forall k | 0 <= k < |ids|
        ensures RowReady(db.table[ids[k]], oldC, newC, again[k])
      {
        assert ids[k] in db.table;
      }
    }
    second := db.RotateEncryption(ids, oldC, newC, again, NoFault);
  }
}
