/** The inventory page of `src/pages/Inventory.tsx`: one card per blood type, coloured by
    how many bags are left. */
module InventoryView {
  import opened Wrappers
  import opened BloodDb

  /** The three colours of `getStatusColor`: red, yellow, green. */
  datatype Status = Critical | Low | Healthy

  /** Worse bands rank lower. */
  function Rank(st: Status): nat
  {
    match st
    case Critical => 0
    case Low => 1
    case Healthy => 2
  }

  /** `getStatusColor`, stated as the page legend's bands: 0-2 critical, 3-5 low, 6+ good. */
  function StatusOf(quantity: int): (st: Status)
    ensures st == Critical <==> quantity <= 2
    ensures st == Low <==> 3 <= quantity <= 5
    ensures st == Healthy <==> quantity >= 6
  {
    if quantity <= 2 then Critical
    else if quantity <= 5 then Low
    else Healthy
  }

  /** Raising a quantity never moves it to a worse band. */
  lemma StatusMonotone(p: int, q: int)
    requires p <= q
    ensures Rank(StatusOf(p)) <= Rank(StatusOf(q))
  {
  }

  /** Position `i` holds the first row for `t`. */
  predicate FirstRowAt(items: seq<InventoryItem>, t: string, i: int)
  {
    0 <= i < |items| && items[i].bloodType == t && forall j :: 0 <= j < i ==> items[j].bloodType != t
  }

  /** `inventory.find(item => item.bloodType === type)`: the first row for `t`, if any. */
  function Find(items: seq<InventoryItem>, t: string): (r: Option<InventoryItem>)
    ensures r.None? <==> forall i :: 0 <= i < |items| ==> items[i].bloodType != t
    ensures r.Some? ==> exists i :: FirstRowAt(items, t, i) && items[i] == r.value
  {
    if items == [] then None
    else if items[0].bloodType == t then
      assert FirstRowAt(items, t, 0);
      Some(items[0])
    else
      var r := Find(items[1..], t);
      assert r.Some? ==> exists i :: FirstRowAt(items, t, i) && items[i] == r.value by {
        if r.Some? {
          var i :| FirstRowAt(items[1..], t, i) && items[1..][i] == r.value;
          forall j | 0 <= j < i + 1
            ensures items[j].bloodType != t
          {
            if j > 0 {
              assert items[j] == items[1..][j - 1];
            }
          }
          assert FirstRowAt(items, t, i + 1);
        }
      }
      r
  }

  /** One card of the page: the type, the quantity shown and its colour. */
  datatype Card = Card(bloodType: string, quantity: int, status: Status)

  /** The quantity shown for `t`: the fetched row's, or 0 when there is none. */
  function ShownQuantity(items: seq<InventoryItem>, t: string): int
  {
    match Find(items, t)
    case Some(item) => item.quantity
    case None => 0
  }

  /** The cards, in `bloodTypes` order, whatever order the rows were fetched in. */
  function Cards(items: seq<InventoryItem>): (cards: seq<Card>)
    ensures |cards| == |BloodTypes|
    ensures forall i :: 0 <= i < |cards| ==> cards[i].bloodType == BloodTypes[i]
    ensures forall i :: 0 <= i < |cards| ==> cards[i].status == StatusOf(cards[i].quantity)
    ensures forall i :: 0 <= i < |cards| && (forall j :: 0 <= j < |items| ==> items[j].bloodType != BloodTypes[i]) ==>
      cards[i].quantity == 0 && cards[i].status == Critical
  {
    seq(|BloodTypes|, i requires 0 <= i < |BloodTypes| =>
      Card(BloodTypes[i], ShownQuantity(items, BloodTypes[i]), StatusOf(ShownQuantity(items, BloodTypes[i]))))
  }

  /** The eight blood types are pairwise different, so each gets exactly one card. */
  lemma BloodTypesDistinct()
    ensures forall i, j :: 0 <= i < j < |BloodTypes| ==> BloodTypes[i] != BloodTypes[j]
  {
  }

  /** In a listing of the store, the row found for a counter carries that counter's quantity. */
  lemma FindInListing(items: seq<InventoryItem>, inv: Inventory, t: string)
    requires Lists(items, inv)
    ensures t in inv ==> Find(items, t).Some? && Find(items, t).value.quantity == inv[t]
    ensures t !in inv ==> Find(items, t).None?
  {
    if t in inv {
      var k :| 0 <= k < |items| && items[k].bloodType == t;
      assert Find(items, t).Some?;
    }
  }

  /** The page shows each stored counter as it is in the store, and 0 for a type without a
      counter, whatever order `getInventory` listed the rows in. */
  lemma CardsShowStore(items: seq<InventoryItem>, inv: Inventory)
    requires Lists(items, inv)
    ensures forall i :: 0 <= i < |BloodTypes| ==>
      Cards(items)[i].quantity == if BloodTypes[i] in inv then inv[BloodTypes[i]] else 0
  {
    forall i | 0 <= i < |BloodTypes|
      ensures Cards(items)[i].quantity == if BloodTypes[i] in inv then inv[BloodTypes[i]] else 0
    {
      FindInListing(items, inv, BloodTypes[i]);
    }
  }

  /** Two listings of the same inventory, in any orders, give the same page. */
  lemma CardsIgnoreFetchOrder(a: seq<InventoryItem>, b: seq<InventoryItem>, inv: Inventory)
    requires Lists(a, inv) && Lists(b, inv)
    ensures Cards(a) == Cards(b)
  {
    CardsShowStore(a, inv);
    CardsShowStore(b, inv);
  }

  /** For a valid store, every card shows the store's counter for its type, never negative. */
  method ShowInventory(s: Store) returns (cards: seq<Card>)
    requires Valid(s)
    ensures |cards| == |BloodTypes|
    ensures forall i :: 0 <= i < |cards| ==>
      && cards[i].bloodType == BloodTypes[i]
      && cards[i].quantity == s.inventory[BloodTypes[i]]
      && cards[i].quantity >= 0
      && cards[i].status == StatusOf(cards[i].quantity)
  {
    var items := GetInventory(s);
    CardsShowStore(items, s.inventory);
    cards := Cards(items);
  }
}
