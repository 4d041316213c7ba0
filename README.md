# Dinosaur park cage store — a verified model

The system is a small HTTP service that tracks cages and the dinosaurs in
them. A cage has an id, a status (`ACTIVE` or `DOWN`), a capacity, a count of
occupants and a kind (the diet code `H` or `C`). Its core is the cage store of
package `das`, written as SQL statements against two tables, and the handler
layer that validates requests, gates dinosaurs on a species reference map and
maps store errors to HTTP status codes.

This project models that core in Dafny:

- `wrappers.dfy` (`Wrappers`): `Option`, and `Outcome` for a Go `error` result (`Pass` is nil).
- `text.dfy` (`Text`): ASCII `ToLower`/`ToUpper`, `strconv.Atoi` for 64-bit ints, and `%d` formatting, with the round trip between the last two.
- `data.dfy` (`Data`): the constants, the `Cage` and `Dinosaur` rows, and `ValidStatus`.
- `das.dfy` (`Das`): class `CageStore`. It holds the cages table as a map from id to row, the dinosaurs table as a sequence in insertion order, and the two id sequences. Each method does what its SQL statement does. Three invariants are stated:
  - I1, `WithinCapacity`: no count exceeds its capacity. It is part of `Valid()`. Every store method that changes the tables requires and keeps `Valid()`, except `PlaceInCage` and `InsertDinosaur`. Those two are single steps inside other methods; they require and keep only `WellFormed()`.
  - I2, `DownOnlyWhenEmpty`: a DOWN cage is empty.
  - I3, `CountsMatchRecords`: each count equals the number of dinosaur rows naming that cage.

  Which method keeps which invariant:
  - `NewCage`, `AddDinosaur` and `SetCageStatus` keep I2 and I3.
  - `GetFreeCage` keeps I2. It does not keep I3: it raises a count before the dinosaur's row exists.
  - `PlaceDinosaurInCage` keeps I3. It does not keep I2 (see below).
  - `CheckCage`, `PlaceInCage` and `InsertDinosaur` promise neither. Each is one half of an increment-and-insert pair. `CheckCage` also ignores status.
  - `SelectFreeCage` and `GetCages` change nothing.
- `gen_map.dfy` (`GenMaps`): class `GenMap` with the map as a field; `Store`, `Load`, `Range`.
- `species.dfy` (`SpeciesLoad`): the loading loop of `ReadSpecies` and the map it builds.
- `handlers.dfy` (`Handlers`): pure functions for the validation decisions, and class `AppHandlers`. Each handler method returns its status code and says which store call it made, if any.
- `scenarios.dfy` (`Scenarios`): client runs from an empty database. They show what the contracts determine: capacity 2 refuses a third dinosaur, a wrong diet is refused, an occupied cage cannot be powered down, find-or-create in `AddDinosaur`, and the species gate.

## Where the code and the design disagree

The model follows the code in each of these cases.

- `CheckCage` (das/das.go:63) does not look at the status. A dinosaur placed with `PlaceDinosaurInCage` into a DOWN cage is accepted. The cage is then DOWN and occupied. So I2 holds only for `NewCage`, `GetFreeCage`, `AddDinosaur` and `SetCageStatus`: their contracts preserve it. `CheckCage` and `PlaceDinosaurInCage` do not, and `Scenarios.DownCageStillAdmits` shows a run that breaks it. The design asks for a CageNotActive refusal here; the code has none.
- The design asks for typed errors such as CageFull and CageNotFound, checked in a fixed order. The code returns one plain error for every refusal by `CheckCage`, and one ("cage status unchanged") for every refusal by `SetCageStatus`. The model returns the same error texts.
- When there are several free cages, the design picks the lowest id. The code keeps the last row its query returns, in no defined order. `SelectFreeCage` may return any free cage.
- The query at das/das.go:121 writes `"ACTIVE"` in double quotes. PostgreSQL reads that as a column name, not a string. The cages table has no such column, so as written the query fails on every call (das/das.go:122-126). The store's `AddDinosaur` then returns that error (das/das.go:82-85), and POST /dino/add answers 422 for every known species (handlers.go:80-83). The model uses the intended test `status = 'ACTIVE'` (`Das.IsFree`). Its contracts for `GetFreeCage`, the store's `AddDinosaur` and the handler `AddDinosaur` describe that intended query. In particular, the handler's 200 reply for a known species holds only for the intended query.
- `PlaceInCage` (das/das.go:170-174) increments without a capacity guard. `GetFreeCage` only calls it on a free cage or on a new one, so I1 holds. The error `PlaceInCage` returns is discarded at das/das.go:142-143.
- The handler `AddDinosaur` checks that the species is known. It does not check that the dinosaur's diet matches the species' diet. The store creates or fills a cage of whatever diet the payload names.
- `NewSpecies` stores the upper-cased diet. `ReadSpecies` stores the diet as written, so `h` stays `h` (`SpeciesLoad.DietStoredAsWritten`).
- `AddSpecies` replies 200 even when `NewSpecies` refuses the diet.

## Model

| member | source | states |
|---|---|---|
| `Text.ToLower` | handlers.go:39 | same length; no upper-case letter left; each character equal to the input's up to case |
| `Text.ToUpper` | handlers.go:35 | same length; no lower-case letter left; each character equal to the input's up to case |
| `Text.ToLowerIdempotent` | handlers.go:75 | lower-casing an already lower-cased key changes nothing, so a key stored lower-cased is found again |
| `Text.ToUpperSingleLetter` | species.go:26-27 | a string upper-cases to the one letter `c` iff it is `c` or its lower-case form |
| `Text.Atoi` | handlers.go:96 | a result exists only for a non-empty string and lies in the 64-bit int range; a negative result needs a leading `-` |
| `Text.NatString` | das/das.go:75 | the decimal rendering is a non-empty digit string without leading zeros |
| `Text.NatStringValue` | das/das.go:75 | the digits rendered for n have the value n |
| `Text.DecimalString` | das/das.go:75 | `%d` of an int is non-empty, starts with `-` exactly when the int is negative, and is otherwise decimal digits |
| `Text.AtoiDecimalString` | das/das.go:75 | Atoi reads back every 64-bit int that `%d` writes |
| `Data.ValidStatus` | das/data.go:30-37 | true exactly for `DOWN` and `ACTIVE`; a valid status is non-empty and upper-case |
| `Data.ValidStatusCaseSensitive` | das/data.go:30-35 | the lower-case form of a valid status is not valid |
| `Data.ConstantsDistinct` | das/data.go:3-12 | the two statuses differ; `H` differs from `C`; `CageCapacity` is at least 1, so a default-capacity cage is never refused; the empty string is not a status |
| `Das.DinosaursIn` | das/das.go:178 | the rows naming a cage are exactly the dinosaur rows whose cage column is that cage |
| `Das.DinosaursInAppend` | das/das.go:57-58 | inserting a dinosaur adds it to its own cage's rows and to no other cage's |
| `Das.DinosaursInNone` | das/das.go:112-114 | a cage no row names has no dinosaurs, so a fresh cage starts consistent with the table |
| `Das.CountsMatchAfterAdmit` | das/das.go:53-58 | if every count matched the rows, the admitted dinosaur's cage counts one more than before and no other count changes, then every count matches the rows once the new row is inserted |
| `Das.CageStore.constructor` | das/das.go:26-28 | an empty database satisfies I1, I2 and I3; both id sequences start at 1 |
| `Das.CageStore.NewCage` | das/das.go:108-116 | capacity below 1: returns -1 with the error and changes nothing. Otherwise: adds exactly one row with the fresh id (returned), ACTIVE, count 0, the given capacity and kind; other rows unchanged; I1, I2 and I3 kept |
| `Das.CageStore.CheckCage` | das/das.go:62-76 | succeeds iff the cage exists, its kind is the diet and count < capacity, and then only that cage's count rises by 1. On failure, the table is unchanged and the error names the cage. Status is not consulted |
| `Das.CageStore.PlaceInCage` | das/das.go:170-174 | increments the named cage's count, or changes nothing if there is no such cage |
| `Das.CageStore.SelectFreeCage` | das/das.go:121-135 | counts the free ACTIVE cages of the diet; when there is one, returns the id of one of them, otherwise 0 |
| `Das.CageStore.GetFreeCage` | das/das.go:120-144 | if a free ACTIVE cage of the diet exists, one of them gets one more occupant and no cage is created. Otherwise exactly one new ACTIVE cage of capacity 20 and that kind is created, with count 1. I1 and I2 kept |
| `Das.CageStore.InsertDinosaur` | das/das.go:57-58 | appends one row with a fresh id, lower-cased species and name, the diet as given and the cage; nothing else changes |
| `Das.CageStore.PlaceDinosaurInCage` | das/das.go:52-60 | succeeds iff `CheckCage` does; then exactly one increment and one inserted row, for the same cage; on failure nothing changes; I1 and I3 kept |
| `Das.CageStore.AddDinosaur` | das/das.go:80-90 | never fails here; the dinosaur's row goes into the cage `GetFreeCage` chose, with that cage's count raised by 1; I1, I2 and I3 kept |
| `Das.CageStore.SetCageStatus` | das/das.go:234-252 | succeeds iff the cage exists and, for DOWN, its count is 0; then only that cage's status changes. Otherwise "cage status unchanged" and nothing changes. No count ever changes; I2 and I3 kept |
| `Das.CageStore.GetCages` | das/das.go:146-168 | returns exactly the rows with the filter's status (all rows with no filter), each cage once |
| `GenMaps.GenMap.constructor` | gen_map.go:9-11 | a new map is empty |
| `GenMaps.GenMap.Store` | gen_map.go:13-15 | the map afterwards is the old one with the key bound to the value |
| `GenMaps.GenMap.Load` | gen_map.go:17-24 | ok iff the key is stored; the stored value, or the zero value when it is not |
| `GenMaps.GenMap.Range` | gen_map.go:26-30 | calls f only on stored pairs, each key at most once; every call but the last returned true; if none returned false, every stored pair was visited |
| `GenMaps.LoadAfterStore` | gen_map.go:13-20 | after `Store(k, v)`, `Load(k)` gives `(v, true)` |
| `GenMaps.LoadOtherAfterStore` | gen_map.go:13-15 | `Store(k, v)` leaves what `Load` gives for every other key unchanged |
| `GenMaps.LoadMissing` | gen_map.go:18-23 | `Load` of a key never stored gives the zero value and false |
| `GenMaps.StoreOverwrites` | gen_map.go:13-15 | a second `Store` to a key replaces the first value |
| `SpeciesLoad.AcceptedDiets` | species.go:26-30 | an entry is kept iff its diet is `H`, `h`, `C` or `c` |
| `SpeciesLoad.SpeciesTableKeys` | species.go:25-32 | the keys are exactly the lower-cased names of the kept entries |
| `SpeciesLoad.SpeciesTableLastWins` | species.go:25-32 | of several kept entries with the same lower-cased name, the last one's diet is stored |
| `SpeciesLoad.SpeciesTableValues` | species.go:26-31 | every key is lower-case and every value upper-cases to a diet code |
| `SpeciesLoad.DietStoredAsWritten` | species.go:31 | the diet is stored as written: `h` stays `h` |
| `SpeciesLoad.ReadSpecies` | species.go:18-32 | the loop leaves in a fresh map exactly the table the properties above describe |
| `Handlers.StoreReply` | handlers.go:80-85 | 200 iff the store returned no error, otherwise the handler's error code |
| `Handlers.CapacityParam` | handlers.go:93-105 | an empty parameter gives the default 20; otherwise an integer of at least 1 is used and anything else is refused; a capacity used is never below 1 |
| `Handlers.CageKind` | handlers.go:107-115 | only `H` and `C` are accepted, each mapped to its own diet code |
| `Handlers.CageIdParam` | handlers.go:213-222 | the emptiness test before Atoi adds nothing: the cage id is exactly what Atoi reads |
| `Handlers.CageFilter` | handlers.go:135-142 | the status filter applies iff the parameter is a valid status; the emptiness test adds nothing |
| `Handlers.AppHandlers.constructor` | handlers.go:22-25 | the handlers hold the given store and species map |
| `Handlers.AppHandlers.CheckSpecies` | handlers.go:28-31 | true iff the name is a key of the species map; the map is only read |
| `Handlers.AppHandlers.NewSpecies` | handlers.go:34-41 | true iff the upper-cased diet is H or C. Then lower(name) maps to upper(diet), so `CheckSpecies(lower(name))` holds afterwards. Otherwise the map is unchanged |
| `Handlers.AppHandlers.AddDinosaur` | handlers.go:67-86 | an undecodable payload or unknown lower-cased species gives 400 and leaves the store untouched. Otherwise 200, and the store changes exactly as its `AddDinosaur` says: one free ACTIVE cage of the diet gains one occupant, or one new capacity-20 cage is created with count 1, and the dinosaur's row is appended for that cage. 422 is unreachable without store failures, and with the intended free-cage query; I1, I2 and I3 kept |
| `Handlers.AppHandlers.AddCage` | handlers.go:89-129 | 200 iff the capacity parameter and the diet are accepted, and then exactly one new cage with that capacity and kind exists and the id sequence advances by one. Otherwise 400 with the store untouched. The store's capacity refusal is unreachable; the dinosaur table is never touched |
| `Handlers.AppHandlers.GetCages` | handlers.go:132-153 | 200 with exactly the cages the chosen filter selects, each cage once |
| `Handlers.AppHandlers.AddSpecies` | handlers.go:178-188 | 422 for an undecodable body, else 200 whatever `NewSpecies` decided; the map changes as `NewSpecies` says |
| `Handlers.AppHandlers.ListSpecies` | handlers.go:191-203 | 200 with exactly the stored name/diet pairs, each name once |
| `Handlers.AppHandlers.SetCageStatus` | handlers.go:206-229 | 400 iff the status is invalid or the cage id is not an integer, and then the store is untouched. Otherwise 200 iff the store changed the status (only that cage's status), else 422 with the cages unchanged. No dinosaur row and no id sequence changes |
| `Handlers.AppHandlers.AddDinoToCage` | handlers.go:254-280 | no species check. 200 iff the cage id is an integer, the payload decodes and `CheckCage` accepts, and then exactly one increment and one row for that cage. The dinosaur id sequence advances only on 200. Any refusal is 400 with both tables unchanged, and no cage is ever created; I3 kept |

## Left out

- Connecting to and closing the database, the SQL driver, and every database failure (lost connection, failed scan, failed insert). The store's `AddDinosaur` therefore never fails here, and the handlers' 422 replies that only such failures produce are unreachable.
- Concurrency: the race the code notes at das/das.go:48-51, the `FOR UPDATE` without a transaction at das/das.go:121, and the thread safety of `sync.Map`. Everything is modelled as sequential.
- `Das.CageStore.GetFreeCage`: the query at das/das.go:121 is modelled with the intended string comparison on `ACTIVE`, not with the column reference its double quotes make.
- `GetDinosaursForCage` and `GetDinosaurs` (das/das.go:176-219) and their handlers are not modelled. `GetDinosaursForCage` selects five columns but scans them into four destinations (das/das.go:178, 186). `database/sql` refuses a scan whose destination count differs from the column count. So as written it fails on the first row: GET /cage/{cageid}/list_dinosaurs answers 422 for an occupied cage and 200 with a null list for an empty one. `Das.DinosaursIn` gives only the rows the query intends.
- `CheckCageDiet` (das/das.go:221-232) is not modelled: it is never called, and its query names a table and column that do not exist.
- Routing, JSON decoding and encoding, reply bodies, `WriteMsg`/`WriteOk`, the health check and `StartServer`. A decoded body is a parameter, with `None` for one that failed to decode.
- Reading the species file and decoding its JSON in `ReadSpecies`, and the logging `Range` at species.go:33-36. The loop receives the decoded entries.
- `main.go`: environment, flags, signals and shutdown.
- `Text.ToLower`, `Text.ToUpper`: Go maps the case of all Unicode letters; the model maps ASCII letters only.
- Integer widths: ids, counts and capacities are unbounded integers beyond what `Text.Atoi` enforces. The database column types are not part of this model.
- Go's variadic status filter of `GetCages` is an `Option`; only its first element was ever used.
