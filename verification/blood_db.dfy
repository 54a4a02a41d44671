/** The blood-bank store of `src/lib/db.ts`: eight per-type inventory counters and an
    append-only log of transaction records, as an immutable state with pure transitions.
    Each IndexedDB transaction is one transition. */
module BloodDb {
  import opened Wrappers
  import opened Records
  import opened DateQuery

  /** The eight blood types, in display order. */
  const BloodTypes: seq<string> := ["A+", "A-", "B+", "B-", "AB+", "AB-", "O+", "O-"]

  /** The counter keys the store is seeded with. */
  const TypeSet: set<string> := set t | t in BloodTypes

  /** The `inventory` object store: blood type to quantity. */
  type Inventory = map<string, int>

  /** One row of the `inventory` store, as `getInventory` and `updateBloodBags` return it. */
  datatype InventoryItem = InventoryItem(bloodType: string, quantity: int)

  /** The open database: the inventory, the `records` store in key order, and the
      records store's key generator (the id the next `add` receives). */
  datatype Store = Store(inventory: Inventory, records: seq<BloodRecord>, nextId: nat)

  /** A version-1 database as it persists between sessions: both object stores and the
      records store's key generator. */
  datatype Persisted = Persisted(inventory: Inventory, records: seq<BloodRecord>, nextId: nat)

  /** The two errors the store raises: an unknown counter in `updateBloodBags`, and the
      `DataError` of a key range whose lower bound exceeds its upper bound. */
  datatype DbError = NotFound(bloodType: string) | DataError

  datatype Updated = Updated(store: Store, item: InventoryItem)

  datatype Added = Added(store: Store, id: nat)

  /** The invariant every reachable store keeps: exactly the eight counters, none negative,
      and record keys strictly increasing, all below the key generator. */
  predicate Valid(s: Store)
  {
    && s.inventory.Keys == TypeSet
    && (forall t :: t in s.inventory ==> s.inventory[t] >= 0)
    && (forall i :: 0 <= i < |s.records| ==> 1 <= s.records[i].id < s.nextId)
    && (forall i, j :: 0 <= i < j < |s.records| ==> s.records[i].id < s.records[j].id)
    && s.nextId >= 1
  }

  /** `s'` differs from `s` at most in the counter for `t`: same keys, every other counter
      and the whole record store unchanged. */
  predicate OnlyCounterChanged(s: Store, s': Store, t: string)
  {
    && s'.inventory.Keys == s.inventory.Keys
    && (forall k :: k in s.inventory && k != t ==> s'.inventory[k] == s.inventory[k])
    && s'.records == s.records
    && s'.nextId == s.nextId
  }

  /** The inventory `initDB` seeds: a zero counter per blood type. */
  function Seed(): (inv: Inventory)
    ensures inv.Keys == TypeSet
    ensures forall t :: t in inv ==> inv[t] == 0
  {
    map t | t in BloodTypes :: 0
  }

  /** `initDB`: opening at version 1 runs the upgrade only when the database does not exist
      yet (`None`), and then both object stores are missing: the inventory is seeded with a
      zero counter per type and the records store starts empty, its key generator at 1.
      An existing database opens as it was left. */
  function InitDB(disk: Option<Persisted>): (s: Store)
    ensures disk.None? ==> s.inventory.Keys == TypeSet
    ensures disk.None? ==> forall t :: t in s.inventory ==> s.inventory[t] == 0
    ensures disk.None? ==> s.records == [] && s.nextId == 1
    ensures disk.Some? ==> s.inventory == disk.value.inventory
    ensures disk.Some? ==> s.records == disk.value.records && s.nextId == disk.value.nextId
  {
    match disk
    case None => Store(Seed(), [], 1)
    case Some(p) => Store(p.inventory, p.records, p.nextId)
  }

  /** What a store leaves on disk. */
  function Persist(s: Store): Persisted
  {
    Persisted(s.inventory, s.records, s.nextId)
  }

  /** Reopening a database leaves it as it was: initialisation is idempotent. */
  lemma InitIdempotent(disk: Option<Persisted>)
    ensures InitDB(Some(Persist(InitDB(disk)))) == InitDB(disk)
  {
  }

  /** A first open yields a store that satisfies the invariant. */
  lemma InitFreshValid()
    ensures Valid(InitDB(None))
    ensures InitDB(None).inventory == Seed()
  {
  }

  /** `updateBloodBags`: fails with a not-found error when the type has no counter,
      otherwise sets its counter to `max(0, quantity + change)` and returns the new row. */
  function UpdateBloodBags(s: Store, bloodType: string, change: int): (r: Result<Updated, DbError>)
    ensures r.Failure? <==> bloodType !in s.inventory
    ensures r.Failure? ==> r.error == NotFound(bloodType)
    ensures r.Success? ==> bloodType in r.value.store.inventory
    ensures r.Success? ==> IsClampOf(s.inventory[bloodType] + change, r.value.store.inventory[bloodType])
    ensures r.Success? ==> OnlyCounterChanged(s, r.value.store, bloodType)
    ensures r.Success? ==> r.value.item == InventoryItem(bloodType, r.value.store.inventory[bloodType])
  {
    if bloodType !in s.inventory then Failure(NotFound(bloodType))
    else
      var q := Clamp(s.inventory[bloodType] + change);
      Success(Updated(s.(inventory := s.inventory[bloodType := q]), InventoryItem(bloodType, q)))
  }

  /** `addRecord`, one transaction over both stores: appends the entry under the next
      generated key, then moves the matching counter by `+bags` or `-bags`, clamped at 0;
      a type with no counter leaves the inventory alone and still stores the record. */
  function AddRecord(s: Store, e: Entry): (r: Added)
    ensures r.id == s.nextId
    ensures r.store.records == s.records + [BloodRecord(r.id, e)]
    ensures r.store.nextId == r.id + 1
    ensures r.store.inventory.Keys == s.inventory.Keys
    ensures forall k :: k in s.inventory && k != e.bloodType ==> r.store.inventory[k] == s.inventory[k]
    ensures e.bloodType in s.inventory ==>
      IsClampOf(s.inventory[e.bloodType] + Delta(e), r.store.inventory[e.bloodType])
    ensures e.bloodType !in s.inventory ==> r.store.inventory == s.inventory
  {
    var id := s.nextId;
    var records := s.records + [BloodRecord(id, e)];
    var inventory :=
      if e.bloodType in s.inventory
      then s.inventory[e.bloodType := Clamp(s.inventory[e.bloodType] + Delta(e))]
      else s.inventory;
    Added(Store(inventory, records, id + 1), id)
  }

  /** Whether `getRecords(start, end)` keeps `r`: everything unless both bounds are given. */
  predicate Selected(r: BloodRecord, start: Option<int>, end: Option<int>)
  {
    start.None? || end.None? || InWindow(r, start.value, end.value)
  }

  /** `getRecords`: the records in the inclusive window when both bounds are given (a
      lower bound above the upper one is the key range's `DataError`), otherwise all of
      them; in both cases sorted newest first. */
  function GetRecords(s: Store, start: Option<int>, end: Option<int>): (r: Result<seq<BloodRecord>, DbError>)
    ensures r.Failure? <==> start.Some? && end.Some? && start.value > end.value
    ensures r.Failure? ==> r.error == DataError
    ensures r.Success? ==> NewestFirst(r.value)
    ensures r.Success? ==> forall x :: multiset(r.value)[x] == if Selected(x, start, end) then multiset(s.records)[x] else 0
  {
    if start.Some? && end.Some? then
      if start.value > end.value then Failure(DataError)
      else Success(SortNewestFirst(Window(s.records, start.value, end.value)))
    else Success(SortNewestFirst(s.records))
  }

  /** The first of `resetDatabase`'s two transactions: puts a zero counter for each of
      the eight types (creating any that is missing) and touches nothing else. */
  function ResetInventory(s: Store): (s': Store)
    ensures s'.inventory.Keys == s.inventory.Keys + TypeSet
    ensures forall t :: t in TypeSet ==> s'.inventory[t] == 0
    ensures forall k :: k in s.inventory && k !in TypeSet ==> s'.inventory[k] == s.inventory[k]
    ensures s'.records == s.records && s'.nextId == s.nextId
  {
    s.(inventory := s.inventory + Seed())
  }

  /** The second transaction: `clear()` empties the records store; the key generator
      keeps its value, so later ids never repeat earlier ones. */
  function ClearRecords(s: Store): (s': Store)
    ensures s'.records == []
    ensures s'.inventory == s.inventory && s'.nextId == s.nextId
  {
    s.(records := [])
  }

  /** `resetDatabase`: the two transactions in order. */
  function ResetDatabase(s: Store): (s': Store)
    ensures forall t :: t in TypeSet ==> t in s'.inventory && s'.inventory[t] == 0
    ensures s'.records == []
    ensures s'.nextId == s.nextId
    ensures Valid(s) ==> Valid(s') && s'.inventory == Seed()
  {
    ClearRecords(ResetInventory(s))
  }

  /** `items` is a listing of `inv`: every counter exactly once, with its quantity. */
  predicate Lists(items: seq<InventoryItem>, inv: Inventory)
  {
    && (forall i :: 0 <= i < |items| ==> items[i].bloodType in inv && items[i].quantity == inv[items[i].bloodType])
    && (forall k :: k in inv ==> exists i :: 0 <= i < |items| && items[i].bloodType == k)
    && (forall i, j :: 0 <= i < j < |items| ==> items[i].bloodType != items[j].bloodType)
  }

  /** `getInventory`: every counter of the store, each once. The order is whatever the
      store yields; here it is the order in which the keys are drawn. */
  method GetInventory(s: Store) returns (items: seq<InventoryItem>)
    ensures Lists(items, s.inventory)
    ensures |items| == |s.inventory.Keys|
  {
    items := [];
    var rest := s.inventory.Keys;
    while rest != {}
      invariant rest <= s.inventory.Keys
      invariant |items| + |rest| == |s.inventory.Keys|
      invariant forall i :: 0 <= i < |items| ==>
        items[i].bloodType in s.inventory && items[i].bloodType !in rest
        && items[i].quantity == s.inventory[items[i].bloodType]
      invariant forall k :: k in s.inventory && k !in rest ==>
        exists i :: 0 <= i < |items| && items[i].bloodType == k
      invariant forall i, j :: 0 <= i < j < |items| ==> items[i].bloodType != items[j].bloodType
      decreases rest
    {
      var k :| k in rest;
      var listed := items;
      items := items + [InventoryItem(k, s.inventory[k])];
      rest := rest - {k};
      forall k' | k' in s.inventory && k' !in rest
        ensures exists i :: 0 <= i < |items| && items[i].bloodType == k'
      {
        if k' == k {
          assert items[|items| - 1].bloodType == k';
        } else {
          var i :| 0 <= i < |listed| && listed[i].bloodType == k';
          assert items[i].bloodType == k';
        }
      }
    }
  }
}
