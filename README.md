# Last-Writer-Wins Element Dictionary

A model of `CRDTDictionary`, a replicated key-value store. Each replica keeps
two maps from string keys to timestamped elements: `additions` and `removals`.
Each map holds one last-writer-wins register per key. A write replaces the
stored element only if its timestamp is strictly newer, so on a tie the stored
element wins. A key is visible when it has an addition and no removal at least
as recent; ties favour removal. Merging replays the other replica's entries
through the same `add` and `remove` writes.

The project has five modules:

- `CrdtElement` (`element.dfy`): the immutable `(value, timestamp)` element. It
  defines element equality, which compares values only, and a hash that depends
  on the value alone.
- `LwwRegister` (`register.dfy`): one register map. `Put` is a single LWW write.
  `Join` is the reference definition of merging one map into another. This
  module proves the merge laws for one map.
- `LwwState` (`state.dfy`): a replica as a pure value. It holds the operations
  as functions, the projection `Visible`, the lookup, and lemmas about single
  operations, operation sequences and merging replicas.
- `LwwDictionary` (`dictionary.dfy`): the class `CRDTDictionary`. Its mutable
  map fields are updated in place. Each method is proved equal to the pure
  operation it implements. `Merge` loops over the other replica's keys in an
  arbitrary order, calling `Add` and `Remove`, and is proved to compute `Join`
  on both maps.
- `LwwScenarios` (`scenarios.dfy`): client code that replays the repository's
  update and merge tests through the class. The tests read the clock; here
  the timestamps are increasing constants. The methods return what the tests
  inspect, and their postconditions are the tests' expectations.

Timestamps are `real`. The code only ever compares them.

Three points where the code's behaviour is easy to misread:

- An `update` whose timestamp is not newer than the key's removal never
  writes anything (Sources/CRDTDictionary/CRDTDictionary.swift:42-45). It only
  calls `add` while the key is visible, and then the removal is strictly older
  than the addition. A timestamp not newer than the removal is therefore older
  than the addition, and `add` refuses it. `UpdateKeepsVisibility` proves that
  `update` never changes whether a key is visible, and that an update that is
  not newer than the stored addition leaves the replica unchanged.
- Associativity of merge needs no distinct-timestamp hypothesis; see
  `JoinAssociative` and `MergeAssociative`. Every grouping keeps the newest
  entry, and among entries with the newest timestamp the leftmost replica's.
  Commutativity does need the hypothesis: `JoinTieKeepsReceiver` shows two
  merge orders that differ on a tie.
- The repository's "commutative" test
  (Tests/CRDTDictionaryTests/CRDTDictionaryTests.swift:198-219) merges in the
  same order twice. The model proves the actual law, `MergeCommutative`. The
  "associative" test merges B into A and then A into B; `ReplicasConverge` is
  that property.

## Model

| member | source | states |
|---|---|---|
| CrdtElement.Same | Sources/CRDTDictionary/CRDTElement.swift:12-14 | `==` on elements compares values only: two elements are equal exactly when giving one the other's timestamp makes them identical |
| CrdtElement.HashInto | Sources/CRDTDictionary/CRDTElement.swift:16-18 | `hash(into:)` feeds only the value to the hasher, so every element equal to this one hashes to the same result |
| CrdtElement.SameIsEquivalence | Sources/CRDTDictionary/CRDTElement.swift:12-14 | element equality is reflexive, symmetric and transitive |
| CrdtElement.SameHashesAlike | Sources/CRDTDictionary/CRDTElement.swift:12-18 | equal elements have equal hashes under any value hasher |
| CrdtElement.TimestampNotPartOfIdentity | Sources/CRDTDictionary/CRDTElement.swift:3-18 | one value under two timestamps gives two distinct pieces of data that are still equal elements with equal hashes |
| LwwRegister.Put | Sources/CRDTDictionary/CRDTDictionary.swift:9-33 | a write adds its key and changes no other key; an absent key gets the new element; a present key ends up with the larger of the two timestamps and is replaced only by a strictly newer element, so a tie keeps the stored one |
| LwwRegister.Join | Sources/CRDTDictionary/CRDTDictionary.swift:48-55 | the merged key set is the union; each key holds one of the two entries, at least as new as both, and the receiver's entry whenever it is not older |
| LwwRegister.JoinPutStep | Sources/CRDTDictionary/CRDTDictionary.swift:49-51 | replaying one more of the other map's entries through a write is one more step of the join, whatever the order |
| LwwRegister.JoinIntoEmpty | Sources/CRDTDictionary/CRDTDictionary.swift:48-55 | merging into an empty map copies the other map |
| LwwRegister.JoinIdempotent | Sources/CRDTDictionary/CRDTDictionary.swift:48-55 | merging the same map a second time changes nothing, with no hypothesis |
| LwwRegister.JoinAssociative | Sources/CRDTDictionary/CRDTDictionary.swift:48-55 | merge of maps is associative, with no hypothesis |
| LwwRegister.JoinCommutative | Sources/CRDTDictionary/CRDTDictionary.swift:48-55 | merge of maps is commutative when no key has two different values at one timestamp |
| LwwRegister.JoinTieKeepsReceiver | Sources/CRDTDictionary/CRDTDictionary.swift:17-19 | when two different elements of one key share a timestamp, the two merge orders give different maps |
| LwwState.AddState | Sources/CRDTDictionary/CRDTDictionary.swift:9-20 | `add` leaves the removals unchanged, and the additions' key set grows by the key only |
| LwwState.RemoveState | Sources/CRDTDictionary/CRDTDictionary.swift:22-33 | `remove` leaves the additions unchanged, and the removals' key set grows by the key only |
| LwwState.Visible | Sources/CRDTDictionary/CRDTDictionary.swift:35-40 | `allItems` is the sub-map of the additions made of the keys with no removal at or after their addition |
| LwwState.Lookup | Sources/CRDTDictionary/CRDTDictionary.swift:57-59 | the subscript finds an element exactly when the key was added and has no removal, or only an older one; it then returns the stored addition |
| LwwState.UpdateState | Sources/CRDTDictionary/CRDTDictionary.swift:42-45 | `update` never touches the removals, and changes the additions only when the key is visible and the new timestamp is newer than the stored addition, storing the new element under the key |
| LwwState.MergeState | Sources/CRDTDictionary/CRDTDictionary.swift:48-55 | after a merge, each map's key set is the union of both replicas' key sets |
| LwwState.NewerAddWins | Tests/CRDTDictionaryTests/CRDTDictionaryTests.swift:20-27 | an add newer than every recorded addition and removal of the key shows its value |
| LwwState.OlderAddIgnored | Tests/CRDTDictionaryTests/CRDTDictionaryTests.swift:32-39 | an add not newer than the stored addition, a tie included, leaves the replica unchanged |
| LwwState.RemovalAtOrAfterAddHides | Tests/CRDTDictionaryTests/CRDTDictionaryTests.swift:64-71 | a removal at or after the key's addition hides the key, a removal at an equal timestamp included |
| LwwState.StaleRemovalIgnored | Tests/CRDTDictionaryTests/CRDTDictionaryTests.swift:76-84 | a removal older than the visible addition leaves the key visible with the same element |
| LwwState.OperationsAreLocal | Sources/CRDTDictionary/CRDTDictionary.swift:9-45 | add, remove and update of one key leave what every other key shows unchanged |
| LwwState.UpdateKeepsVisibility | Sources/CRDTDictionary/CRDTDictionary.swift:42-45 | update never makes a key visible or hidden; a newer update of a visible key shows the new value; one that is not newer changes nothing |
| LwwState.ApplyAllHoldsLatest | Sources/CRDTDictionary/CRDTDictionary.swift:9-33 | after any sequence of adds and removes, each map holds per key an element at least as new as every operation of its kind on that key, and that element is the prior entry or one of those operations' payloads |
| LwwState.MergeIntoEmpty | Tests/CRDTDictionaryTests/CRDTDictionaryTests.swift:207-209 | a fresh replica that merges another replica becomes a copy of it |
| LwwState.MergeIdempotent | Tests/CRDTDictionaryTests/CRDTDictionaryTests.swift:173-193 | merging the same replica twice gives the same maps as merging it once, unconditionally |
| LwwState.MergeAssociative | Sources/CRDTDictionary/CRDTDictionary.swift:48-55 | chained merges give the same maps and projection under either grouping, unconditionally |
| LwwState.MergeCommutative | Sources/CRDTDictionary/CRDTDictionary.swift:48-55 | replicas that never disagree at an equal timestamp merge to the same maps and projection in either order |
| LwwState.ReplicasConverge | Tests/CRDTDictionaryTests/CRDTDictionaryTests.swift:224-244 | when such replicas exchange states, A into B after B into A, they end with the same maps |
| LwwState.MergeDisjointIsUnion | Sources/CRDTDictionary/CRDTDictionary.swift:48-55 | merging replicas with disjoint keys shows the union of what each showed |
| LwwDictionary.CRDTDictionary.constructor | Sources/CRDTDictionary/CRDTDictionary.swift:7 | a new replica has empty additions and removals |
| LwwDictionary.CRDTDictionary.Add | Sources/CRDTDictionary/CRDTDictionary.swift:9-20 | the in-place `add` leaves the replica in the state `AddState` gives |
| LwwDictionary.CRDTDictionary.Remove | Sources/CRDTDictionary/CRDTDictionary.swift:22-33 | the in-place `remove` leaves the replica in the state `RemoveState` gives |
| LwwDictionary.CRDTDictionary.AllItems | Sources/CRDTDictionary/CRDTDictionary.swift:35-40 | the visible items are the additions with no removal, or with a removal strictly older than the addition |
| LwwDictionary.CRDTDictionary.Get | Sources/CRDTDictionary/CRDTDictionary.swift:57-59 | the subscript on the fields agrees with `Lookup` on the replica's value |
| LwwDictionary.CRDTDictionary.Update | Sources/CRDTDictionary/CRDTDictionary.swift:42-45 | the in-place `update` leaves the replica in the state `UpdateState` gives |
| LwwDictionary.CRDTDictionary.Merge | Sources/CRDTDictionary/CRDTDictionary.swift:48-55 | replaying the other replica's entries in any key order joins both maps; merging a replica into itself is covered |
| LwwScenarios.FirstReplica | Tests/CRDTDictionaryTests/CRDTDictionaryTests.swift:150-155 | the receiving replica of the merge tests holds the listed entries |
| LwwScenarios.SecondReplica | Tests/CRDTDictionaryTests/CRDTDictionaryTests.swift:157-160 | the other replica of the merge tests holds the listed entries |
| LwwScenarios.AddRemoveAddThenUpdate | Tests/CRDTDictionaryTests/CRDTDictionaryTests.swift:104-124 | a removed key stays hidden through an update; after a newer add, a newer update is visible with its value |
| LwwScenarios.MergeOnce | Tests/CRDTDictionaryTests/CRDTDictionaryTests.swift:149-168 | after the merge both maps hold two keys, `key` shows the other replica's newer value and `key2` keeps the far-future one, and merging again would change nothing |
| LwwScenarios.MergeAdditionsAndRemovals | Tests/CRDTDictionaryTests/CRDTDictionaryTests.swift:173-193 | after merging the same replica twice the map sizes and both keys' values are those of a single merge |

## Left out

- The clock extension `Date.gmt` (Sources/CRDTDictionary/Utils/Date+Extensions.swift and its copy in CRDTDictionary.swift) is wall-clock and time-zone I/O, not part of the algorithm.
- Default clock timestamps: the source's argument defaults read the system clock (`update` uses the shifted `gmt` clock). Every timestamp is an explicit parameter here.
- Floating-point behaviour of `TimeInterval` (NaN, rounding): timestamps are `real` under their usual total order.
- The Swift `Hasher`: hashing is modelled as an arbitrary function of the value.
- The second, identical definition of the element class inside CRDTDictionary.swift: the element type is modelled once.
- Object identity of the element class: elements are immutable and compare by value, so they are modelled as datatype values.
- The iteration order of Swift dictionaries in `merge`: the loop takes keys in an arbitrary order, and its result is proved independent of the order.
- Thread safety, transport and persistence: the source has none of them.
- Swift string equality: the keys are compared as sequences of code points, without the Unicode canonical equivalence that Swift's `String` equality and hashing apply. Two spellings of one key, such as a precomposed and a decomposed "café", are one key in the source and two keys in the model.
