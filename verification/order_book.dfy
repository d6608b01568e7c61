/** The local copy of one symbol's order book and the two operations that
    change it: replacing it wholesale with a REST depth snapshot, and folding
    in one decoded "depthUpdate" stream event.

    Both sides are maps from the raw price string to the raw quantity string.
    The quantity "0" is the venue's deletion marker. Ids are signed 64-bit
    integers, as in the program.
 */
module OrderBook {
  import opened Wrappers

  /** The program's `long long`. */
  newtype int64 = x: int | -0x8000_0000_0000_0000 <= x < 0x8000_0000_0000_0000

  /** A (price, quantity) pair exactly as the venue sends it. */
  datatype Level = Level(price: string, qty: string)

  /** The book: bid and ask levels keyed by price, and the id of the last
      snapshot or update folded in (0 before the first snapshot). */
  datatype Book = Book(bids: map<string, string>, asks: map<string, string>, lastUpdateId: int64)

  /** The state the program starts in. */
  const Initial: Book := Book(map[], map[], 0)

  /** A decoded depth snapshot: its `lastUpdateId` and its level lists. */
  datatype Snapshot = Snapshot(lastUpdateId: int64, bids: seq<Level>, asks: seq<Level>)

  /** A decoded depth update: first update id `U`, final update id `u`, the
      optional previous final id `pu`, and the changed levels `b` and `a`. */
  datatype DepthUpdate = DepthUpdate(
    firstUpdateId: int64,
    finalUpdateId: int64,
    prevFinalUpdateId: Option<int64>,
    bids: seq<Level>,
    asks: seq<Level>)

  /** The quantity string that removes a level; compared as text, so "0.0" does not. */
  const DeleteQty: string := "0"

  /** The prices a level list mentions. */
  function Prices(ls: seq<Level>): set<string> {
    set i | 0 <= i < |ls| :: ls[i].price
  }

  lemma PricesAppend(ls: seq<Level>, l: Level)
    ensures Prices(ls + [l]) == Prices(ls) + {l.price}
  {
    var ls' := ls + [l];
    assert ls'[..|ls|] == ls;
    assert Prices(ls') == Prices(ls'[..|ls'| - 1]) + {ls'[|ls'| - 1].price};
  }

  /** The quantity of the last level in `ls` priced `p`, if any: the one that
      wins when a list names the same price twice. */
  function LastQty(ls: seq<Level>, p: string): (r: Option<string>)
    ensures r.None? <==> p !in Prices(ls)
    ensures r.Some? ==>
      exists i :: 0 <= i < |ls| && ls[i] == Level(p, r.value) &&
        forall j :: i < j < |ls| ==> ls[j].price != p
    decreases |ls|
  {
    if |ls| == 0 then None
    else if ls[|ls| - 1].price == p then Some(ls[|ls| - 1].qty)
    else
      var r := LastQty(ls[..|ls| - 1], p);
      assert Prices(ls) == Prices(ls[..|ls| - 1]) + {ls[|ls| - 1].price};
      r
  }

  /** No stored level carries the deletion marker. */
  predicate NoZeroQty(m: map<string, string>) {
    forall p :: p in m ==> m[p] != DeleteQty
  }

  predicate NoZeroLevels(book: Book) {
    NoZeroQty(book.bids) && NoZeroQty(book.asks)
  }

  /** One level of an update: erase on "0", otherwise insert or overwrite.
      Every other price keeps its presence and quantity. */
  function ApplyLevel(m: map<string, string>, l: Level): (r: map<string, string>)
    ensures l.qty == DeleteQty ==> l.price !in r
    ensures l.qty != DeleteQty ==> l.price in r && r[l.price] == l.qty
    ensures forall p :: p != l.price ==> (p in r <==> p in m) && (p in m ==> r[p] == m[p])
  {
    if l.qty == DeleteQty then m - {l.price} else m[l.price := l.qty]
  }

  /** The levels of an update, applied in order. A price whose last mention
      carries "0" is gone, one whose last mention carries anything else holds
      that quantity, and an unmentioned price keeps what it had. */
  function ApplyLevels(m: map<string, string>, ls: seq<Level>): (r: map<string, string>)
    ensures forall p :: LastQty(ls, p).None? ==> (p in r <==> p in m) && (p in m ==> r[p] == m[p])
    ensures forall p :: LastQty(ls, p) == Some(DeleteQty) ==> p !in r
    ensures forall p :: LastQty(ls, p).Some? && LastQty(ls, p).value != DeleteQty ==>
      p in r && r[p] == LastQty(ls, p).value
    decreases |ls|
  {
    if |ls| == 0 then m
    else ApplyLevel(ApplyLevels(m, ls[..|ls| - 1]), ls[|ls| - 1])
  }

  /** One level of a snapshot: stored as given, a "0" quantity included.
      The price joins the keys, and every other price keeps its quantity. */
  function StoreLevel(m: map<string, string>, l: Level): (r: map<string, string>)
    ensures r.Keys == m.Keys + {l.price}
    ensures r[l.price] == l.qty
    ensures forall p :: p in m && p != l.price ==> r[p] == m[p]
  {
    m[l.price := l.qty]
  }

  /** The levels of a snapshot, stored in order: every listed price is present
      with the quantity of its last listing, and nothing else changes. */
  function StoreLevels(m: map<string, string>, ls: seq<Level>): (r: map<string, string>)
    ensures r.Keys == m.Keys + Prices(ls)
    ensures forall p :: LastQty(ls, p).Some? ==> p in r && r[p] == LastQty(ls, p).value
    ensures forall p :: p in m && LastQty(ls, p).None? ==> r[p] == m[p]
    decreases |ls|
  {
    if |ls| == 0 then m
    else
      assert Prices(ls) == Prices(ls[..|ls| - 1]) + {ls[|ls| - 1].price};
      StoreLevel(StoreLevels(m, ls[..|ls| - 1]), ls[|ls| - 1])
  }

  /** Replaces the whole book with a snapshot: the id is taken over, both
      sides are cleared and refilled from the snapshot's lists. */
  function ReplaceSnapshot(book: Book, snap: Snapshot): (r: Book)
    ensures r.lastUpdateId == snap.lastUpdateId
    ensures r.bids.Keys == Prices(snap.bids) && r.asks.Keys == Prices(snap.asks)
    ensures forall p :: p in r.bids ==> LastQty(snap.bids, p) == Some(r.bids[p])
    ensures forall p :: p in r.asks ==> LastQty(snap.asks, p) == Some(r.asks[p])
  {
    // Nothing of `book` is kept: both sides are refilled from empty maps.
    var bids := StoreLevels(map[], snap.bids);
    var asks := StoreLevels(map[], snap.asks);
    Book(bids, asks, snap.lastUpdateId)
  }

  /** The whole snapshot fetch, given the decoded response, or `None` when
      something fails before the id is set: the connection, the request, the
      JSON parse, or a missing or ill-typed `lastUpdateId`. Such a failure is
      caught and logged, and leaves the book as it was. A failure partway
      through the level lists, after the book was already cleared, is not
      modelled. */
  function FetchSnapshot(book: Book, response: Option<Snapshot>): (r: Book)
    ensures response.None? ==> r == book
    ensures response.Some? ==> r.lastUpdateId == response.value.lastUpdateId
    ensures response.Some? ==> r == ReplaceSnapshot(Initial, response.value)
  {
    match response
    case None => book
    case Some(snap) => ReplaceSnapshot(book, snap)
  }

  /** What the reconciliation rule does with an update. */
  datatype Verdict =
    | Stale     // its final id is not past the book's: discarded silently
    | OutOfSync // it starts beyond the next expected id: logged and dropped
    | Accepted  // its levels are applied and its final id recorded

  /** The reconciliation rule. Ids are compared as 64-bit integers; the
      `+ 1` cannot overflow, because it is only reached when the book's id is
      below the update's final id. The previous-final id plays no part. */
  function Classify(lastUpdateId: int64, u: DepthUpdate): (v: Verdict)
    ensures v == Accepted ==> lastUpdateId < u.finalUpdateId
  {
    if u.finalUpdateId <= lastUpdateId then Stale
    else if lastUpdateId > 0 && u.firstUpdateId > lastUpdateId + 1 then OutOfSync
    else Accepted
  }

  /** Folds one update into the book under the reconciliation rule. The id
      never decreases, anything that changes comes with a strictly larger id,
      and a book without "0" quantities keeps that property. */
  function ApplyUpdate(book: Book, u: DepthUpdate): (r: Book)
    ensures r.lastUpdateId >= book.lastUpdateId
    ensures r != book ==> r.lastUpdateId > book.lastUpdateId
    ensures NoZeroLevels(book) ==> NoZeroLevels(r)
  {
    if Classify(book.lastUpdateId, u) != Accepted then book
    else
      var withBids := book.(bids := ApplyLevels(book.bids, u.bids));
      var withAsks := withBids.(asks := ApplyLevels(withBids.asks, u.asks));
      withAsks.(lastUpdateId := u.finalUpdateId)
  }

  /** The receive loop: every update of the stream, in arrival order. */
  function ApplyStream(book: Book, us: seq<DepthUpdate>): (r: Book)
    ensures r.lastUpdateId >= book.lastUpdateId
    ensures NoZeroLevels(book) ==> NoZeroLevels(r)
    decreases |us|
  {
    if |us| == 0 then book
    else ApplyUpdate(ApplyStream(book, us[..|us| - 1]), us[|us| - 1])
  }
}
