/**
 The per-key slot counters, called one at a time. Their atomic steps under
 interleaving are the subject of `Admission` and `AdmissionSlots`.
 */
module Concurrency {

  class Counter {
    var count: int

    constructor ()
      ensures count == 0
    {
      count := 0;
    }

    // Atomic add, returning the new value.
    method Add(delta: int) returns (n: int)
      modifies this
      ensures n == count == old(count) + delta
    {
      count := count + delta;
      n := count;
    }
  }

  class Memory {
    var counters: map<string, Counter>

    ghost predicate Valid()
      reads this
    {
      forall j, k :: j in counters && k in counters && j != k ==> counters[j] != counters[k]
    }

    ghost function Footprint(): set<Counter>
      reads this
    {
      set k | k in counters :: counters[k]
    }

    function InFlight(keyID: string): int
      reads this, Footprint()
    {
      if keyID in counters then counters[keyID].count else 0
    }

    constructor ()
      ensures Valid() && Footprint() == {}
    {
      counters := map[];
    }

    // A counter once made for a key stays that key's counter.
    method LoadOrCreate(keyID: string) returns (ctr: Counter)
      requires Valid()
      modifies this
      ensures Valid() && keyID in counters && counters[keyID] == ctr
      ensures forall k :: k in old(counters) ==> k in counters && counters[k] == old(counters[k])
      ensures forall k :: k in counters ==> k in old(counters) || (k == keyID && fresh(ctr))
      ensures forall k :: InFlight(k) == old(InFlight(k))
    {
      if keyID in counters {
        return counters[keyID];
      }
      ctr := new Counter();
      counters := counters[keyID := ctr];
    }

    method Acquire(keyID: string, limit: int) returns (granted: bool)
      requires Valid()
      modifies this, Footprint()
      ensures Valid() && fresh(Footprint() - old(Footprint()))
      ensures granted <==> limit <= 0 || old(InFlight(keyID)) < limit
      ensures limit <= 0 ==> counters == old(counters)
      ensures InFlight(keyID) == old(InFlight(keyID)) + if granted && limit > 0 then 1 else 0
      ensures forall k :: k != keyID ==> InFlight(k) == old(InFlight(k))
    {
      if limit <= 0 {
        return true;
      }
      var ctr := LoadOrCreate(keyID);
      var n := ctr.Add(1);
      if n > limit {
        n := ctr.Add(-1);
        return false;
      }
      return true;
    }

    method Release(keyID: string, limit: int)
      requires Valid()
      modifies Footprint()
      ensures Valid() && counters == old(counters)
      ensures InFlight(keyID) == old(InFlight(keyID)) - if limit > 0 && keyID in counters then 1 else 0
      ensures forall k :: k != keyID ==> InFlight(k) == old(InFlight(k))
    {
      if limit <= 0 {
        return;
      }
      if keyID !in counters {
        return;
      }
      var _ := counters[keyID].Add(-1);
    }
  }
}
