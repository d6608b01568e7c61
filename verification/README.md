# Order-book bookkeeping of a depth-stream client

This project models, in Dafny, the order-book bookkeeping of a small C++
client that keeps a local copy of one symbol's order book from a REST depth
snapshot and a WebSocket stream of `depthUpdate` events. The networking and
JSON decoding are left out. What remains is a state of two price-level maps
plus the last applied update id, and four operations on it.

- **Snapshot replacement** (`OrderBook.ReplaceSnapshot`). The book takes the
  snapshot's `lastUpdateId`, both sides are cleared, and each side is refilled
  from the snapshot's (price, quantity) list. A price listed twice keeps its
  last quantity. A `"0"` quantity is stored like any other.
- **Diff application** (`OrderBook.ApplyUpdate`, with the rule in
  `OrderBook.Classify`). An update whose final id `u` is not past the book's id
  is stale and is discarded. Once the book holds a positive id, an update whose
  first id `U` lies beyond the next id is out of sync: the program logs it and
  drops it, with no recovery. Any other update erases each level whose quantity
  is exactly `"0"`, upserts every other level, and records `u`. The previous
  final id `pu` is read but never used.
- **Receive loop** (`OrderBook.ApplyStream`). Updates are applied one after
  another in arrival order.
- **Top-of-book view** (`BookView.TopOfBook`). It returns the first `depth`
  asks in ascending order and the first `depth` bids in descending order.

Prices and quantities stay the raw strings the venue sends. The maps order
prices with std::string's `operator<`, which `StringOrder.Less` defines
explicitly: lexicographic on characters, with a proper prefix first. The
bid map uses the reverse order. Read as numbers, "9" would come before "10".
The code compares text, so "10" comes before "9". The model follows the code
(`StringOrder.TextOrderIsNotNumeric`). The same goes for deletion: only the
exact string `"0"` deletes a level, so `"0.00"` would be stored.

Ids are the program's `long long`, modelled as the newtype `OrderBook.int64`.
The `last_update_id + 1` in the out-of-sync test cannot overflow. The verifier
checks this inside `Classify`: the test is only reached when the book's id is
below the update's final id.

Modules: `Wrappers` (Option), `StringOrder` (the key order and its laws),
`OrderBook` (state and operations), `OrderBookProperties` (lemmas relating
them), and `BookView` (the top-N view).

## Model

| member | source | states |
|---|---|---|
| StringOrder.Less | lame.cpp:26-27 | the key comparison of both maps never puts a price before itself, and puts a proper prefix before each of its extensions |
| StringOrder.Before | lame.cpp:26-27 | the visiting order of a side (default order for asks, `std::greater` for bids) never puts a price before itself, and of two distinct prices the one not visited first is the larger ask or the smaller bid |
| StringOrder.LessIsLexicographic | lame.cpp:26-27 | the recursive key comparison holds exactly when one price is a proper prefix of the other, or the two agree up to a position where the first has the smaller character |
| StringOrder.LessIrreflexive | lame.cpp:26-27 | no price is ordered before itself |
| StringOrder.LessTransitive | lame.cpp:26-27 | the key order is transitive |
| StringOrder.LessTotal | lame.cpp:26-27 | any two distinct prices are ordered one way or the other, so each side iterates in a single well-defined order |
| StringOrder.LessAsymmetric | lame.cpp:26-27 | two prices are never each ordered before the other |
| StringOrder.TextOrderIsNotNumeric | lame.cpp:26-27 | raw text order puts "10" before "9" and "100.00" before "99.5" |
| OrderBook.LastQty | lame.cpp:103-122 | the quantity reported for a price is that of its last mention in the list: some entry carries it and no later entry names that price; there is none exactly when the price is not mentioned |
| OrderBook.ApplyLevel | lame.cpp:106-110 | one update level: qty "0" removes its price, any other qty becomes that price's qty, and every other price keeps its presence and qty (the same step for asks is at lame.cpp:117-121) |
| OrderBook.ApplyLevels | lame.cpp:103-122 | after an update's level list is applied, a price whose last mention has qty "0" is absent, a price whose last mention has another qty maps to that qty, and an unmentioned price is present with its old qty exactly when it was present before |
| OrderBook.StoreLevel | lame.cpp:68 | one snapshot level: its price joins the keys with the listed qty ("0" included), and every other price keeps its qty (the same store for asks is at lame.cpp:72) |
| OrderBook.StoreLevels | lame.cpp:67-73 | after a snapshot's level list is stored, the keys are the old keys plus every listed price, each listed price holds the qty of its last listing ("0" included), and other prices keep their qty |
| OrderBook.ReplaceSnapshot | lame.cpp:62-73 | after a snapshot, the id is the snapshot's, each side's keys are exactly the snapshot's prices for that side, and each price holds the qty of its last listing |
| OrderBook.FetchSnapshot | lame.cpp:32-82 | a failed fetch leaves the book unchanged; a successful one yields the snapshot's id and the same book whatever the book was before |
| OrderBook.Classify | lame.cpp:86-100 | an update is accepted only if its final id is past the book's id |
| OrderBook.ApplyUpdate | lame.cpp:85-127 | the id never decreases; whenever the book changes, its id strictly increases; a book with no "0" qty on either side keeps that property |
| OrderBook.ApplyStream | lame.cpp:185-194 | across a stream of updates the id never decreases, and the no-"0" property is kept |
| OrderBookProperties.StaleUpdateIsNoOp | lame.cpp:91-93 | an update with final id not past the book's id is classed stale and leaves bids, asks and id unchanged |
| OrderBookProperties.OutOfSyncUpdateIsNoOp | lame.cpp:96-100 | with a positive book id, an update whose final id is past the book's and whose first id exceeds the book id plus one is classed out of sync and leaves the whole book, id included, unchanged |
| OrderBookProperties.AcceptanceCondition | lame.cpp:91-100 | an update is accepted if and only if its final id is past the book's and either the book id is not positive or its first id is at most the book id plus one; the id grows exactly on acceptance, and then equals the update's final id |
| OrderBookProperties.NoContinuityCheckBeforeSnapshot | lame.cpp:96 | from the initial book (id 0), every update with a positive final id is applied, whatever its first id |
| OrderBookProperties.PrevFinalIdIgnored | lame.cpp:88 | changing or removing the update's previous-final id never changes the result |
| OrderBookProperties.AcceptedUpdateLevels | lame.cpp:102-124 | for an accepted update, per side: a price last given qty "0" is gone, a price last given another qty maps to it, and an unmentioned price keeps its presence and qty |
| OrderBookProperties.SidesAreIndependent | lame.cpp:102-122 | the asks after an update do not depend on the book's bids or the update's bid levels, and the bids do not depend on the asks |
| OrderBookProperties.SnapshotDiscardsPriorBook | lame.cpp:62-65 | the book after a snapshot does not depend on the book before it |
| OrderBookProperties.ReplaceSnapshotIdempotent | lame.cpp:62-73 | applying the same snapshot twice equals applying it once |
| OrderBookProperties.SnapshotMayStoreZeroQty | lame.cpp:67-69 | a snapshot listing a level with qty "0" stores it, so the no-"0" invariant that updates keep does not hold after every snapshot |
| OrderBookProperties.StreamIdsNonDecreasing | lame.cpp:124 | along a stream, the id after any prefix is never above the id after the whole stream |
| OrderBookProperties.StreamAcceptedIdsIncrease | lame.cpp:91-124 | each update the stream accepts sets the id to its final id, strictly above the id before it |
| OrderBookProperties.OutOfSyncNeverRecovers | lame.cpp:96-100 | with a positive id, a stream of updates all starting beyond the next id leaves the book exactly as it was: nothing refetches or resynchronises |
| OrderBookProperties.ContinuityExample | lame.cpp:96-100 | with id 100, an update starting at 105 is dropped and one starting at 101 is applied |
| OrderBookProperties.SnapshotThenUpdateExample | lame.cpp:62-124 | a snapshot at id 1000 with bid 100.00, then an update 990..1005 that zeroes that bid and adds ask 101.00, leaves no bids, that one ask and id 1005 |
| BookView.BestPrice | lame.cpp:134 | the price picked from a non-empty key set belongs to it and comes before every other key in side order (lowest ask, highest bid) |
| BookView.TopLevels | lame.cpp:133-142 | the levels visited number min(depth, side size), or none when depth is not positive; they are strictly in side order; each carries its stored qty; and every price left out comes after all visited ones |
| BookView.TopOfBook | lame.cpp:130-142 | the view holds the ask head in ascending order and the bid head in descending order, and shows no "0" qty when none is stored |
| BookView.TopOfIsUnique | lame.cpp:133-142 | the view's contract determines it: two level lists that both meet it are equal |

## Left out

- TLS, HTTP and WebSocket connection setup, requests, reads and shutdown. These are network I/O through Boost.Beast and Asio.
- JSON decoding through nlohmann. A failed fetch is modelled only as a missing response (`OrderBook.FetchSnapshot`). Snapshots and updates are taken as already-decoded records. If a payload is malformed the library throws partway through, which can leave the book half-populated; that is not modelled. The filter on the event type `"depthUpdate"` in the receive loop is also outside the model: the stream is given as decoded depth updates only.
- A missing `pu` field is decoded as -1 by the program. It is modelled as `Option` instead, because the value is never used.
- Console output: number formatting, the log lines, and printing every tenth update. The view is returned as a sequence of levels.
- Buffering, resynchronisation or a desynced state. The program only logs "Out of sync" and returns, and the model does the same.
- Character order: std::string compares bytes as `unsigned char`, while a Dafny `string` compares Unicode scalar values. The two orders agree on valid UTF-8 text, which the JSON library delivers, but the model orders characters, not bytes.
- Numeric parsing or comparison of prices and quantities. The program compares the raw strings, and the model does too.
- Concurrency. The program keeps its state in unsynchronised globals, but everything runs on one thread.
