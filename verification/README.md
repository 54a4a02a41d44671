# BloodHub blood-bank store, modelled in Dafny

BloodHub is a browser application for a blood bank. Donors and recipients are
registered through a form. Each registration is stored as a transaction record and
moves a per-blood-type inventory counter: a donation adds bags and a reception removes
them, floored at zero. An inventory page colours each of the eight counters by stock
level, and a reports page lists the records newest first, optionally within a date range.

This project models the part with state: the client-side store of `src/lib/db.ts`. It is
an immutable `Store` with three parts:

- the inventory, a map from blood-type string to quantity;
- the record store, in key order;
- the record store's key generator.

Every store operation is a pure transition. The model also covers two pure rule sets:

- the registration form's schema and submit step (`src/pages/Register.tsx`);
- the stock-status classification of the inventory page (`src/pages/Inventory.tsx`).

Modules:

- `Wrappers`: `Option` and `Result`.
- `Records`: the transaction kind, the record, and its signed bag delta (`+bags` or `-bags`), plus the clamp `max(0, v)`.
- `DateQuery`: the inclusive date window and the newest-first insertion sort behind `getRecords`.
- `BloodDb`: the store and its operations `initDB`, `getInventory`, `updateBloodBags`, `addRecord`, `getRecords` and `resetDatabase`, plus the invariant `Valid`.
- `StoreProperties`: lemmas over several operations. They cover invariant preservation, fresh ids, agreement between `addRecord` and `updateBloodBags`, and the replay of a sequence of records against the clamped running sum.
- `InventoryView`: the status bands, the lookup of a fetched row with its default of 0, and the eight cards.
- `Registration`: the field rules, the record built from a valid form, the submit step, and the form reset.

`Valid` is the store invariant. It says:

- the counters are exactly the eight seeded types;
- no counter is negative;
- record ids strictly increase;
- every id is below the key generator.

Quantities are `int`, so "never negative" is a proved fact, not a typing artefact.

Some behaviours of the code that are easy to misread:

- `getRecords` with both bounds and a start later than the end does not return an empty list. `IDBKeyRange.bound` raises a `DataError` for such a range, and `GetRecords` returns that error.
- The registration schema only requires a non-empty blood type. It does not check the type against the eight known ones. The store silently ignores a type it has no counter for, so such a record is kept and the inventory does not move (`UnknownTypeStoredWithoutEffect`).
- The "date not in the future" rule exists only as a calendar-widget restriction. It is not a schema rule and is not modelled as one.
- `resetDatabase` writes a zero counter for each of the eight types. A missing counter is therefore re-created, and any other key is left alone. Clearing the record store does not reset its key generator, so ids are never reused after a reset (`ResetNeverReusesIds`).

## Model

| member | source | states |
|---|---|---|
| Records.ClampIsMax | src/lib/db.ts:108 | the clamp is exactly `max(0, v)`: at least 0 and at least `v`, equal to one of them, and the only such value |
| DateQuery.Window | src/lib/db.ts:152-154 | keeps exactly the records with `start <= date <= end`, both ends inclusive, each as often as it occurs in the store |
| DateQuery.Insert | src/lib/db.ts:160 | inserting into a newest-first sequence keeps it newest-first and adds exactly that one record |
| DateQuery.SortNewestFirst | src/lib/db.ts:159-160 | the sort's output is a permutation of its input with dates non-increasing |
| BloodDb.Seed | src/lib/db.ts:34 | the seeded inventory has exactly the eight blood-type keys, each with quantity 0 |
| BloodDb.InitDB | src/lib/db.ts:36-61 | opening a database that does not exist yet seeds eight zero counters and an empty record store with its key generator at 1; an existing database opens exactly as it was left |
| BloodDb.InitIdempotent | src/lib/db.ts:39-59 | reopening the database that a store left on disk changes nothing |
| BloodDb.InitFreshValid | src/lib/db.ts:47-58 | a first open yields a store that satisfies the invariant, with every counter at zero |
| BloodDb.UpdateBloodBags | src/lib/db.ts:96-115 | fails with not-found exactly when the type has no counter; otherwise the counter becomes `max(0, q + change)`, the returned row carries it, keys, other counters and records are unchanged |
| BloodDb.AddRecord | src/lib/db.ts:118-143 | appends exactly one record carrying the entry unchanged under the key generator's id, advances the generator, and moves only the matching counter by the clamped `+bags`/`-bags`; a type without a counter leaves the inventory as it is |
| BloodDb.GetRecords | src/lib/db.ts:145-161 | with both bounds returns the records dated inside the inclusive window, otherwise all records, as a newest-first permutation; a start after the end is a `DataError` |
| BloodDb.ResetInventory | src/lib/db.ts:166-176 | the first reset transaction puts every one of the eight types at 0, leaves other keys and all records untouched |
| BloodDb.ClearRecords | src/lib/db.ts:178-181 | the second reset transaction empties the records and keeps the key generator and the inventory |
| BloodDb.ResetDatabase | src/lib/db.ts:163-182 | after a reset the eight counters are 0 and there are no records; a valid store stays valid with exactly the seeded inventory |
| BloodDb.GetInventory | src/lib/db.ts:91-94 | returns every counter of the store exactly once with its quantity |
| StoreProperties.UpdatePreservesValid | src/lib/db.ts:101-111 | a successful adjustment adds no key and leaves no counter negative |
| StoreProperties.AddRecordPreservesValid | src/lib/db.ts:123-142 | adding a record keeps the invariant and its returned id differs from every stored record's id |
| StoreProperties.AddRecordAgreesWithUpdate | src/lib/db.ts:129-139 | `addRecord` moves the counter exactly as `updateBloodBags` with the record's signed bag count would, and is a silent no-op on the inventory exactly where `updateBloodBags` reports not-found |
| StoreProperties.IncreasingIdsOccurOnce | src/lib/db.ts:40-43 | records whose auto-incremented keys strictly increase each occur exactly once in the store |
| StoreProperties.GetRecordsEachOnce | src/lib/db.ts:152-160 | in a valid store every selected record appears in the result exactly once |
| StoreProperties.ResetNeverReusesIds | src/lib/db.ts:178-181 | a reset keeps the store valid, and the next record added gets an id no record before the reset had |
| StoreProperties.AddAllReplays | src/lib/db.ts:123-139 | after any sequence of `addRecord` calls each counter equals the replay of its type's deltas clamped at 0 after every step, keys are unchanged, the store holds the earlier records followed by exactly one record per call carrying that call's entry, in order under consecutive ids, and the key generator advanced once per call |
| StoreProperties.EntriesOfStamped | src/lib/db.ts:123-126 | reading the entries back from the records stored under consecutive keys gives exactly the entries that were added |
| StoreProperties.EntriesAppend | src/lib/db.ts:123-126 | the entries of an appended log are the entries of the old log followed by those of the appended records |
| StoreProperties.AddAllAppends | src/lib/db.ts:123-126 | after any sequence of `addRecord` calls the log is the earlier log followed by one record per call under consecutive ids, and the key generator advanced once per call |
| StoreProperties.AddAllLogsEntries | src/lib/db.ts:123-126 | after any sequence of `addRecord` calls the log's entries are the earlier entries followed by exactly the added ones, in call order |
| StoreProperties.FreshStoreInventoryReflectsLog | src/lib/db.ts:118-143 | on a freshly opened store, after any sequence of `addRecord` calls, the log holds exactly the added entries and every counter equals the clamped replay of the entries the log holds |
| StoreProperties.AddAllPreservesValid | src/lib/db.ts:118-143 | any sequence of `addRecord` calls keeps the store valid |
| StoreProperties.ReplayAtLeastNet | src/lib/db.ts:134 | per-step clamping only raises a counter: the replayed value is at least the start plus the net donations minus receptions |
| StoreProperties.ReplayExactWithoutReceptions | src/lib/db.ts:129-134 | with no receptions of a type, no step clamps and the counter is exactly the start plus the donated bags |
| StoreProperties.ReplayNonNegative | src/lib/db.ts:134 | a replayed counter that starts non-negative never goes negative |
| StoreProperties.AdjustExamples | src/lib/db.ts:101-111 | adjusting a counter of 3 by -100 yields 0, and adjusting the unknown type `ZZ` fails with not-found |
| StoreProperties.FreshDonationExample | src/lib/db.ts:118-142 | a donation of two O- bags on a freshly opened store gets id 1, is the only record, and raises O- from 0 to 2 |
| InventoryView.StatusOf | src/pages/Inventory.tsx:26-30 | a quantity of at most 2 is critical, 3 to 5 is low and 6 or more is healthy, matching the page legend |
| InventoryView.StatusMonotone | src/pages/Inventory.tsx:26-30 | a larger quantity never falls into a worse band |
| InventoryView.Find | src/pages/Inventory.tsx:52 | finds nothing exactly when no fetched row has the type, and otherwise returns the first row that has it |
| InventoryView.Cards | src/pages/Inventory.tsx:51-53 | one card per blood type in `bloodTypes` order, coloured by its quantity; a type absent from the fetched rows shows 0 and is critical |
| InventoryView.BloodTypesDistinct | src/lib/db.ts:34 | the eight blood types are pairwise different, so each is displayed once |
| InventoryView.FindInListing | src/pages/Inventory.tsx:52 | in a listing of the inventory, the row found for a stored type carries that counter's quantity, and a type without a counter is not found |
| InventoryView.CardsShowStore | src/pages/Inventory.tsx:51-53 | each card shows the stored counter for its type, or 0 when the type has no counter |
| InventoryView.CardsIgnoreFetchOrder | src/pages/Inventory.tsx:51-52 | any two listings of the same inventory, in whatever order, produce the same page |
| InventoryView.ShowInventory | src/pages/Inventory.tsx:14-53 | for a valid store the page shows every type's stored, non-negative quantity in `bloodTypes` order |
| Registration.Errors | src/pages/Register.tsx:25-43 | a field is reported exactly when it breaks its rule: CPF length outside 11..14, name shorter than 3, age missing or outside 16..120, weight missing or below 50, empty blood type, bags missing or below 1, no date, or a kind other than donation/reception |
| Registration.Validate | src/pages/Register.tsx:67-76 | a form is accepted exactly when no field breaks its rule, and then yields a record with the text fields and date copied, the parsed numbers taken over, and a non-zero bag delta whose sign is positive exactly for a donation |
| Registration.Submit | src/pages/Register.tsx:65-95 | an invalid form leaves store and form unchanged; a valid one is stored by exactly one `addRecord`, and the form resets to empty CPF, name and blood type, no age or weight, one bag, today's date and the active tab's kind, which leaves it failing the CPF, name, age, weight and blood-type rules |
| Registration.SubmitMovesCounter | src/pages/Register.tsx:65-78 | a valid submission for a stored type keeps the store valid, raises the counter by exactly the bag count for a donation, lowers it clamped at 0 for a reception, and leaves every other counter alone |
| Registration.UnknownTypeStoredWithoutEffect | src/pages/Register.tsx:36 | a valid form naming a type without a counter is still stored as one record while the inventory does not move |
| Registration.UnknownTypePassesValidation | src/pages/Register.tsx:36 | a form with blood type `ZZ` passes validation, since the rule only asks for a non-empty string |

## Left out

- IndexedDB and the `idb` wrapper are not modelled: database opening, object stores, indexes, `tx.done`, and async interleaving. Each transaction is one atomic transition, and `resetDatabase`'s two transactions are two separate transitions.
- Storage failures (I/O, quota, corruption) are not modelled. So are the aborts they cause and the error toast `onSubmit` shows for them. The model's transitions cannot fail halfway, so no partial state exists to check.
- Dates are modelled as integer millisecond timestamps. Quantities, bag counts, ages and timestamps are modelled as unbounded `int`, and weight as `real`. The source holds all of them as IEEE-754 doubles, and double rounding beyond 2^53 is not modelled, including in `Math.max(0, q + change)`. `NaN`, infinities and fractional changes passed straight to `updateBloodBags` are not modelled either.
- `parseInt` and `parseFloat` are not modelled. The form holds already-parsed values, with `None` for `NaN`. The zod and react-hook-form machinery is left out too.
- String lengths are counted in Dafny characters. JavaScript counts UTF-16 code units, so the two differ only outside the Basic Multilingual Plane.
- The calendar widget's "no future dates" restriction (src/pages/Register.tsx:249) is a UI restriction, not a schema rule.
- The upgrade callback's per-store `contains` checks (src/lib/db.ts:39, 47) are not modelled separately. At version 1 the callback runs only for a database that does not exist yet, where both checks pass, so the model has no database holding only one of the two stores.
- The commented-out `resettDatabase` is not modelled. Neither are the reports page, which only forwards its two dates to `getRecords`, the layout and not-found pages, and all rendering, styling, toasts and date formatting.
- BloodDb.GetInventory: does not follow the store's string-key order for rows. It returns the counters in an order of its own choosing. The inventory page is proved independent of that order (`CardsIgnoreFetchOrder`).
- BloodDb.GetRecords: the ranged query reads the by-date index, but the model filters the record store in key order instead. It then sorts the same way. The model's insertion sort places equal dates in key order, but this tie order is not stated in any contract.
- DateQuery.SortNewestFirst: states a newest-first permutation. It does not state where records with equal dates end up.
