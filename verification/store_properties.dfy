/** Properties of the store that relate several operations, or an operation to the
    invariant it keeps. */
module StoreProperties {
  import opened Wrappers
  import opened Records
  import opened DateQuery
  import opened BloodDb

  /** `updateBloodBags` keeps the invariant: no new key, no negative counter. */
  lemma UpdatePreservesValid(s: Store, bloodType: string, change: int)
    requires Valid(s)
    ensures UpdateBloodBags(s, bloodType, change).Success? ==>
      Valid(UpdateBloodBags(s, bloodType, change).value.store)
  {
  }

  /** `addRecord` keeps the invariant, and the id it returns belongs to no stored record. */
  lemma AddRecordPreservesValid(s: Store, e: Entry)
    requires Valid(s)
    ensures Valid(AddRecord(s, e).store)
    ensures forall x :: x in s.records ==> x.id != AddRecord(s, e).id
  {
  }

  /** `addRecord` moves a counter exactly as `updateBloodBags` with the record's signed bag
      count would; where `updateBloodBags` reports a missing counter, `addRecord` leaves the
      inventory as it is. */
  lemma AddRecordAgreesWithUpdate(s: Store, e: Entry)
    ensures e.bloodType in s.inventory ==>
      && UpdateBloodBags(s, e.bloodType, Delta(e)).Success?
      && AddRecord(s, e).store.inventory == UpdateBloodBags(s, e.bloodType, Delta(e)).value.store.inventory
    ensures e.bloodType !in s.inventory ==>
      && UpdateBloodBags(s, e.bloodType, Delta(e)) == Failure(NotFound(e.bloodType))
      && AddRecord(s, e).store.inventory == s.inventory
  {
  }

  /** Keys that strictly increase make every record occur once. */
  lemma {:induction false} IncreasingIdsOccurOnce(rs: seq<BloodRecord>)
    requires forall i, j :: 0 <= i < j < |rs| ==> rs[i].id < rs[j].id
    ensures forall x :: x in rs ==> multiset(rs)[x] == 1
  {
    if rs != [] {
      IncreasingIdsOccurOnce(rs[1..]);
      assert rs == [rs[0]] + rs[1..];
      assert rs[0] !in rs[1..] by {
        forall k | 0 <= k < |rs[1..]|
          ensures rs[1..][k] != rs[0]
        {
          assert rs[1..][k].id == rs[k + 1].id > rs[0].id;
        }
      }
    }
  }

  /** In a valid store, `getRecords` returns each selected record exactly once. */
  lemma GetRecordsEachOnce(s: Store, start: Option<int>, end: Option<int>, out: seq<BloodRecord>)
    requires Valid(s)
    requires GetRecords(s, start, end) == Success(out)
    ensures forall x :: x in s.records && Selected(x, start, end) ==> multiset(out)[x] == 1
  {
    IncreasingIdsOccurOnce(s.records);
  }

  /** `resetDatabase` keeps the invariant, and does not reset the key generator: the
      first record added afterwards gets an id that no record before the reset had. */
  lemma ResetNeverReusesIds(s: Store, e: Entry)
    requires Valid(s)
    ensures Valid(ResetDatabase(s))
    ensures forall x :: x in s.records ==> x.id != AddRecord(ResetDatabase(s), e).id
  {
  }

  /** The counter for `t` after replaying `es` from `q`: each entry of type `t` moves it
      by its signed bag count, clamped at 0 after every step. */
  function ReplayCounter(q: int, es: seq<Entry>, t: string): int
    decreases |es|
  {
    if es == [] then q
    else
      var q' := if es[0].bloodType == t then Clamp(q + Delta(es[0])) else q;
      ReplayCounter(q', es[1..], t)
  }

  /** The unclamped net change of type `t` over `es`: donations minus receptions. */
  function NetDelta(es: seq<Entry>, t: string): int
    decreases |es|
  {
    if es == [] then 0
    else (if es[0].bloodType == t then Delta(es[0]) else 0) + NetDelta(es[1..], t)
  }

  /** `addRecord` applied to each entry in turn. */
  function AddAll(s: Store, es: seq<Entry>): Store
    decreases |es|
  {
    if es == [] then s else AddAll(AddRecord(s, es[0]).store, es[1..])
  }

  /** The records `addRecord` stores for `es`, one per entry in order, under consecutive
      keys from `first`. */
  function Stamped(first: nat, es: seq<Entry>): seq<BloodRecord>
    decreases |es|
  {
    if es == [] then [] else [BloodRecord(first, es[0])] + Stamped(first + 1, es[1..])
  }

  /** The entries a record log holds, in key order. */
  function Entries(rs: seq<BloodRecord>): seq<Entry>
    decreases |rs|
  {
    if rs == [] then [] else [rs[0].entry] + Entries(rs[1..])
  }

  /** Reading the entries of a log distributes over appending. */
  lemma {:induction false} EntriesAppend(a: seq<BloodRecord>, b: seq<BloodRecord>)
    ensures Entries(a + b) == Entries(a) + Entries(b)
    decreases |a|
  {
    if a == [] {
      assert a + b == b;
    } else {
      assert (a + b)[0] == a[0];
      assert (a + b)[1..] == a[1..] + b;
      EntriesAppend(a[1..], b);
    }
  }

  /** Stamping entries with keys and reading them back gives the entries again. */
  lemma {:induction false} EntriesOfStamped(first: nat, es: seq<Entry>)
    ensures Entries(Stamped(first, es)) == es
    decreases |es|
  {
    if es != [] {
      EntriesOfStamped(first + 1, es[1..]);
      assert es == [es[0]] + es[1..];
    }
  }

  /** After any sequence of `addRecord` calls each counter is the clamped running sum of its
      type's deltas, the store holds exactly the earlier records followed by one record
      per call, in order and under consecutive keys, and the key generator advanced once
      per call. */
  lemma {:induction false} AddAllReplays(s: Store, es: seq<Entry>, t: string)
    requires t in s.inventory
    ensures t in AddAll(s, es).inventory
    ensures AddAll(s, es).inventory[t] == ReplayCounter(s.inventory[t], es, t)
    ensures AddAll(s, es).inventory.Keys == s.inventory.Keys
    ensures AddAll(s, es).records == s.records + Stamped(s.nextId, es)
    ensures AddAll(s, es).nextId == s.nextId + |es|
    decreases |es|
  {
    if es != [] {
      var s' := AddRecord(s, es[0]).store;
      AddAllReplays(s', es[1..], t);
      assert s'.records + Stamped(s'.nextId, es[1..]) == s.records + Stamped(s.nextId, es);
    }
  }

  /** Whatever the inventory, the record log after a sequence of `addRecord` calls is the
      earlier log followed by one record per call, under consecutive keys. */
  lemma {:induction false} AddAllAppends(s: Store, es: seq<Entry>)
    ensures AddAll(s, es).records == s.records + Stamped(s.nextId, es)
    ensures AddAll(s, es).nextId == s.nextId + |es|
    decreases |es|
  {
    if es != [] {
      var s' := AddRecord(s, es[0]).store;
      AddAllAppends(s', es[1..]);
      assert s'.records + Stamped(s'.nextId, es[1..]) == s.records + Stamped(s.nextId, es);
    }
  }

  /** The entries the log holds after a sequence of `addRecord` calls are the earlier ones
      followed by exactly the added entries, in call order. */
  lemma AddAllLogsEntries(s: Store, es: seq<Entry>)
    ensures Entries(AddAll(s, es).records) == Entries(s.records) + es
  {
    AddAllAppends(s, es);
    EntriesAppend(s.records, Stamped(s.nextId, es));
    EntriesOfStamped(s.nextId, es);
  }

  /** On a freshly opened store, every counter equals the clamped replay of the entries the
      record log actually holds: the inventory reflects the recorded transactions. */
  lemma FreshStoreInventoryReflectsLog(es: seq<Entry>, t: string)
    requires t in TypeSet
    ensures t in AddAll(InitDB(None), es).inventory
    ensures Entries(AddAll(InitDB(None), es).records) == es
    ensures AddAll(InitDB(None), es).inventory[t] == ReplayCounter(0, Entries(AddAll(InitDB(None), es).records), t)
  {
    AddAllReplays(InitDB(None), es, t);
    EntriesOfStamped(1, es);
    assert AddAll(InitDB(None), es).records == Stamped(1, es);
  }

  /** A sequence of `addRecord` calls keeps the store valid. */
  lemma {:induction false} AddAllPreservesValid(s: Store, es: seq<Entry>)
    requires Valid(s)
    ensures Valid(AddAll(s, es))
    decreases |es|
  {
    if es != [] {
      AddRecordPreservesValid(s, es[0]);
      AddAllPreservesValid(AddRecord(s, es[0]).store, es[1..]);
    }
  }

  /** Clamping only ever raises a counter, so the replayed value is at least the start
      plus the net change. */
  lemma {:induction false} ReplayAtLeastNet(q: int, es: seq<Entry>, t: string)
    ensures ReplayCounter(q, es, t) >= q + NetDelta(es, t)
    decreases |es|
  {
    if es != [] {
      var q' := if es[0].bloodType == t then Clamp(q + Delta(es[0])) else q;
      ReplayAtLeastNet(q', es[1..], t);
    }
  }

  /** Without receptions of type `t` no step is clamped, and the counter is the plain sum. */
  lemma {:induction false} ReplayExactWithoutReceptions(q: int, es: seq<Entry>, t: string)
    requires q >= 0
    requires forall i :: 0 <= i < |es| && es[i].bloodType == t ==> es[i].kind == Donation && es[i].bags >= 0
    ensures ReplayCounter(q, es, t) == q + NetDelta(es, t)
    decreases |es|
  {
    if es != [] {
      var q' := if es[0].bloodType == t then Clamp(q + Delta(es[0])) else q;
      ReplayExactWithoutReceptions(q', es[1..], t);
    }
  }

  /** A replayed counter that starts non-negative stays non-negative. */
  lemma {:induction false} ReplayNonNegative(q: int, es: seq<Entry>, t: string)
    requires q >= 0
    ensures ReplayCounter(q, es, t) >= 0
    decreases |es|
  {
    if es != [] {
      var q' := if es[0].bloodType == t then Clamp(q + Delta(es[0])) else q;
      ReplayNonNegative(q', es[1..], t);
    }
  }

  /** Adjusting a counter of 3 by -100 leaves 0, and an unknown type is not found. */
  lemma AdjustExamples()
    ensures var s := Store(Seed()["A+" := 3], [], 1);
      && UpdateBloodBags(s, "A+", -100).Success?
      && UpdateBloodBags(s, "A+", -100).value.item == InventoryItem("A+", 0)
      && UpdateBloodBags(s, "ZZ", 1) == Failure(NotFound("ZZ"))
  {
    var s := Store(Seed()["A+" := 3], [], 1);
    assert "ZZ" !in TypeSet;
  }

  /** Two bags of O- donated to a fresh store raise O- from 0 to 2 under id 1. */
  lemma FreshDonationExample(e: Entry)
    requires e.bloodType == "O-" && e.bags == 2 && e.kind == Donation
    ensures var s0 := InitDB(None);
      && AddRecord(s0, e).id == 1
      && AddRecord(s0, e).store.records == [BloodRecord(1, e)]
      && AddRecord(s0, e).store.inventory["O-"] == 2
  {
  }
}
