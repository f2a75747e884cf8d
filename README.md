# Athlete performance registry — a Dafny model

This project models the back end of an athlete-performance tracker: an
in-memory registry of `AthletePerformance` records keyed by a 64-bit id.
The registry hands out ids from a counter that starts at 0 and only grows.
It keeps the records in an ordered map, and it offers these operations:
create, partial update, achievements replacement, delete, point lookup,
full listing, name and sport substring search, exact achievement search,
a seven-day recency filter and a count that refuses an empty registry.

Layout, one module per component:

- `records.dfy` — module `Records`: the record, the payload, the error
  conditions, and the pure record transformations behind create
  (`NewPerformance`), partial update (`ApplyUpdate`) and achievements
  replacement (`WithAchievements`), with lemmas on how these compose.
- `text.dfy` — module `Text`: case-sensitive substring containment
  (`Contains`), the test the name and sport searches use.
- `listing.dfy` — module `Listing`: the map's entries in ascending key
  order (`InKeyOrder`), the order-preserving `Filter` that every search
  applies, and the fact that a strictly ascending sequence is fixed by its
  set of elements (`AscendingDeterminedByMembers`). So each query's
  ordering and membership contracts pin its result down exactly.
- `registry.dfy` — module `Registry`: class `Store`, with the record map
  `records` and the counter `nextId` as fields. `Valid()` says that every
  key is its record's id and is below `nextId`. Mutations are methods that
  update the two fields in place; queries are functions that only read
  them, so no query can change the registry. A few client methods at the
  end run the operations in sequence.

The host clock is the parameter `now` of every operation that reads it.

## Model

| member | source | states |
|---|---|---|
| `Records.NewPerformance` | src/icp_rust_boilerplate_backend/src/lib.rs:84-94 | a new record carries the given id, copies every payload field verbatim (empty ones included), has `createdAt = now` and no `updatedAt` |
| `Records.ApplyUpdate` | src/icp_rust_boilerplate_backend/src/lib.rs:118-130 | name, sport and metrics are each replaced exactly when the payload's one is non-empty, achievements exactly when the payload list is non-empty; id and `createdAt` are kept; `updatedAt` becomes `Some(now)` whatever the payload |
| `Records.WithAchievements` | src/icp_rust_boilerplate_backend/src/lib.rs:199-200 | achievements become exactly the given list (even empty) and `updatedAt = Some(now)`; every other field is kept |
| `Records.EmptyPayloadOnlyStamps` | src/icp_rust_boilerplate_backend/src/lib.rs:118-130 | an all-empty payload changes nothing but `updatedAt` |
| `Records.CurrentFieldsOnlyStamp` | src/icp_rust_boilerplate_backend/src/lib.rs:118-130 | resubmitting a record's own fields has the same effect as an empty update |
| `Records.UpdatesCompose` | src/icp_rust_boilerplate_backend/src/lib.rs:118-130 | two updates equal one update with the second payload overlaid on the first; repeating an update is idempotent |
| `Records.ClearingAsymmetry` | src/icp_rust_boilerplate_backend/src/lib.rs:118-200 | the partial update never empties a non-empty field or list; replacing achievements with `[]` does empty the list |
| `Records.CreateThenUpdateWithSamePayload` | src/icp_rust_boilerplate_backend/src/lib.rs:84-130 | updating a new record with the payload it was created from only stamps `updatedAt` |
| `Text.Contains` | src/icp_rust_boilerplate_backend/src/lib.rs:144 | true exactly when the pattern occurs as a contiguous piece of the text at some position; the empty pattern occurs everywhere |
| `Text.CaseSensitiveExamples` | src/icp_rust_boilerplate_backend/src/lib.rs:144 | "Banana" contains "ana"; "Ana" and "Anne" do not (matching is case-sensitive) |
| `Listing.InKeyOrder` | src/icp_rust_boilerplate_backend/src/lib.rs:101-106 | the listing of a map's keys in a range is strictly ascending by id, and holds exactly the records stored under those keys |
| `Listing.InKeyOrderLength` | src/icp_rust_boilerplate_backend/src/lib.rs:101-106 | the listing has as many entries as the map has keys in the range |
| `Listing.Filter` | src/icp_rust_boilerplate_backend/src/lib.rs:141-150 | the result holds exactly the elements that pass, never grows, and stays strictly ascending when the input is |
| `Listing.FilterKeepsAll` | src/icp_rust_boilerplate_backend/src/lib.rs:141-150 | a filter that every element passes returns its input unchanged |
| `Listing.FilterPair` | src/icp_rust_boilerplate_backend/src/lib.rs:141-150 | filtering two records keeps each one exactly when it passes, in order |
| `Listing.AscendingDeterminedByMembers` | src/icp_rust_boilerplate_backend/src/lib.rs:101-106 | two strictly ascending sequences with the same elements are equal, so an ordered listing is fixed by its contents |
| `Registry.Store.constructor` | src/icp_rust_boilerplate_backend/src/lib.rs:43-48 | the registry starts empty with the counter at 0 |
| `Registry.Store.GenerateId` | src/icp_rust_boilerplate_backend/src/lib.rs:51-53 | returns the counter's value, advances it by one, and the id exceeds every stored key |
| `Registry.Store.Insert` | src/icp_rust_boilerplate_backend/src/lib.rs:55-62 | stores the record under its id, replacing any previous one, and changes nothing else |
| `Registry.Store.Add` | src/icp_rust_boilerplate_backend/src/lib.rs:83-97 | the new record takes a fresh id above every stored key, carries the payload verbatim, `createdAt = now` and no `updatedAt`; it is added under that id, no earlier record changes, and looking it up returns it |
| `Registry.Store.Update` | src/icp_rust_boilerplate_backend/src/lib.rs:111-135 | on a missing id: `NotFound(id)` and nothing changes; otherwise the record becomes `ApplyUpdate(old, payload, now)`, it is returned, and no other record or the counter changes |
| `Registry.Store.UpdateAchievements` | src/icp_rust_boilerplate_backend/src/lib.rs:189-205 | on a missing id: `NotFound(id)` and nothing changes; otherwise only that record's achievements and stamp change, and it is returned |
| `Registry.Store.Delete` | src/icp_rust_boilerplate_backend/src/lib.rs:245-252 | on a present id: returns the removed record and removes only that key; on a missing id: `NotFound(id)` and nothing changes; afterwards a lookup of the id gives `NotFound`; the counter is untouched, so the id is never reused |
| `Registry.Store.Get` | src/icp_rust_boilerplate_backend/src/lib.rs:73-79 | `Ok` exactly when the id is stored, with the record whose id is the id; `NotFound(id)` otherwise |
| `Registry.Store.GetAll` | src/icp_rust_boilerplate_backend/src/lib.rs:100-108 | every stored record exactly once, in strictly ascending id order, as many entries as the map holds |
| `Registry.Store.SearchByName` | src/icp_rust_boilerplate_backend/src/lib.rs:138-152 | exactly the stored records whose name contains the query (case-sensitive), in ascending id order |
| `Registry.Store.SearchBySport` | src/icp_rust_boilerplate_backend/src/lib.rs:155-169 | exactly the stored records whose sport contains the query (case-sensitive), in ascending id order |
| `Registry.Store.SearchByAchievement` | src/icp_rust_boilerplate_backend/src/lib.rs:172-186 | exactly the stored records whose achievements include an entry equal to the query, in ascending id order |
| `Registry.Store.RecentlyUpdated` | src/icp_rust_boilerplate_backend/src/lib.rs:208-231 | exactly the stored records with `updatedAt = Some(t)` and `t > now - 604800` (strict), in ascending id order; never-updated records are excluded |
| `Registry.Store.Count` | src/icp_rust_boilerplate_backend/src/lib.rs:234-242 | `NoAthletes` exactly when the registry is empty; otherwise the number of records, which equals the length of the listing |
| `Registry.Store.GetAgreesWithListing` | src/icp_rust_boilerplate_backend/src/lib.rs:73-108 | a lookup finds a record exactly when the listing holds it under that id |
| `Registry.Store.EmptyQueryMatchesAll` | src/icp_rust_boilerplate_backend/src/lib.rs:138-169 | the name and sport searches with an empty query return the full listing |
| `Registry.UpdateStampsAreRecent` | src/icp_rust_boilerplate_backend/src/lib.rs:208-231 | a record stamped by either update at `now` is in the recency window at `now`; a newly created record is not |
| `Registry.SportExamples` | src/icp_rust_boilerplate_backend/src/lib.rs:161 | "Swimming" contains "Swim" and "Basketball" does not |
| `Registry.AddDeleteAdd` | src/icp_rust_boilerplate_backend/src/lib.rs:51-53 | create, delete, create: the second id is the first plus one, the deleted id stays gone, and the map gains only the second record |
| `Registry.CountScenario` | src/icp_rust_boilerplate_backend/src/lib.rs:234-242 | on a fresh registry the count fails with `NoAthletes`; after one creation it is `Ok(1)` |
| `Registry.SearchScenario` | src/icp_rust_boilerplate_backend/src/lib.rs:155-186 | on a fresh registry two creations get ids 0 and 1; the sport search "Swim" returns only the swimmer; the achievement search "MVP" returns only the record listing it |
| `Registry.DeleteScenario` | src/icp_rust_boilerplate_backend/src/lib.rs:245-252 | after two creations, deleting the first returns it, deleting it again gives `NotFound`, and the listing holds only the second |

## Left out

- Candid encoding and decoding of records (`Storable`, lib.rs:23-31) and the 1024-byte record bound (lib.rs:33-36) are serialisation done by foreign code. The map insert is therefore total in the model. In the source, an oversized record would make the insert fail, and `add_athlete_performance` would then return an error after consuming an id; the model has no such failure path.
- `Registry.Store.Add`: returns the record rather than `Ok(record)`, because with an infallible insert `add_athlete_performance` has no error outcome left.
- Stable memory, the memory manager and the thread-local wrappers (lib.rs:38-49) are host substrate. The registry is one object with a plain map field. Durability and restarts are not modelled: the counter in lib.rs:43 is a plain atomic and is not persisted, so the model covers a single lifetime.
- 64-bit widths: ids, timestamps and the count are unbounded naturals. The 2^64 wrap-around of the counter and of `len() as u64` is not modelled; it cannot be reached in practice.
- The atomic `fetch_add` with `SeqCst` ordering is concurrency machinery. Calls run one at a time, so the counter is a plain field.
- Registry.Store.RecentlyUpdated: requires `now >= 604800`. The source computes `time() - 604800` on `u64`, which would underflow for smaller clock values; the model does not say what happens then.
- Units of the recency window: the source names the constant in seconds (lib.rs:209) but subtracts it from `ic_cdk::api::time()`, which counts nanoseconds (lib.rs:219). So the window the code computes is 604800 ns, about 0.6 ms, not seven days. The model keeps the code's arithmetic: the window is 604800 units of the clock that stamps the records.
- The clock is a parameter. The model does not assume successive calls see non-decreasing times, so it proves no ordering between stamps of different calls; each update sets `updatedAt` to exactly the `now` it is given.
- `Registry.Store.Update` and `Registry.Store.UpdateAchievements` give the evidently intended effect (the changed record is stored and returned), not what the code as written does. The registry's own `RefCell` (lib.rs:45) is mutably borrowed at lib.rs:114 and lib.rs:195, and the `athlete` reference from `get_mut` keeps that borrow alive while `do_insert_athlete_performance` calls `borrow_mut()` again (lib.rs:58). That second borrow panics, so as written both update operations trap on every stored id, and only their `NotFound` path ever returns. The model has no trap outcome.
- Error messages are formatted strings in the source. The model has the variants `NotFound(id)` and `NoAthletes` instead.
- The unused `IdCell` alias (lib.rs:10), the unused `Error` enum (lib.rs:254-257) and the interface export (lib.rs:259) carry no behaviour.
- Strings are sequences of characters. Rust's `contains` works on UTF-8 bytes, but for valid UTF-8 text, containment on bytes and on characters agree.
- Ids start at 0 (lib.rs:43) and the counter is not persisted. Name and sport matching is case-sensitive (lib.rs:144, lib.rs:161), so "Ana" does not match the query "ana" (`Text.CaseSensitiveExamples`).
