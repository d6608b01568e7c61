/** Properties of the reconciliation rule and of snapshot replacement, stated
    over all books, snapshots and updates. */
module OrderBookProperties {
  import opened Wrappers
  import opened OrderBook

  /** An update whose final id is not past the book's changes nothing. */
  lemma StaleUpdateIsNoOp(book: Book, u: DepthUpdate)
    requires u.finalUpdateId <= book.lastUpdateId
    ensures Classify(book.lastUpdateId, u) == Stale
    ensures ApplyUpdate(book, u) == book
  {
  }

  /** Once the book holds an id, an update starting beyond the next id is
      dropped whole: levels and id stay as they were, nothing is repaired. */
  lemma OutOfSyncUpdateIsNoOp(book: Book, u: DepthUpdate)
    requires book.lastUpdateId < u.finalUpdateId
    requires book.lastUpdateId > 0 && u.firstUpdateId as int > book.lastUpdateId as int + 1
    ensures Classify(book.lastUpdateId, u) == OutOfSync
    ensures ApplyUpdate(book, u) == book
  {
  }

  /** The exact acceptance condition, and that acceptance is what moves the id. */
  lemma AcceptanceCondition(book: Book, u: DepthUpdate)
    ensures Classify(book.lastUpdateId, u) == Accepted <==>
      book.lastUpdateId < u.finalUpdateId &&
      (book.lastUpdateId <= 0 || u.firstUpdateId as int <= book.lastUpdateId as int + 1)
    ensures ApplyUpdate(book, u).lastUpdateId > book.lastUpdateId <==>
      Classify(book.lastUpdateId, u) == Accepted
    ensures Classify(book.lastUpdateId, u) == Accepted ==>
      ApplyUpdate(book, u).lastUpdateId == u.finalUpdateId
  {
  }

  /** Before any snapshot the continuity test is skipped: every update with a
      positive final id is applied, whatever its first id. */
  lemma NoContinuityCheckBeforeSnapshot(u: DepthUpdate)
    requires u.finalUpdateId > 0
    ensures Classify(Initial.lastUpdateId, u) == Accepted
    ensures ApplyUpdate(Initial, u).lastUpdateId == u.finalUpdateId
  {
  }

  /** The previous-final id `pu` has no effect on the result. */
  lemma PrevFinalIdIgnored(book: Book, u: DepthUpdate, pu: Option<int64>)
    ensures ApplyUpdate(book, u.(prevFinalUpdateId := pu)) == ApplyUpdate(book, u)
  {
  }

  /** What an accepted update does to each price level of each side. */
  lemma AcceptedUpdateLevels(book: Book, u: DepthUpdate)
    requires Classify(book.lastUpdateId, u) == Accepted
    ensures var r := ApplyUpdate(book, u);
      && (forall p :: LastQty(u.bids, p) == Some(DeleteQty) ==> p !in r.bids)
      && (forall p :: LastQty(u.bids, p).Some? && LastQty(u.bids, p).value != DeleteQty ==>
            p in r.bids && r.bids[p] == LastQty(u.bids, p).value)
      && (forall p :: LastQty(u.bids, p).None? ==>
            (p in r.bids <==> p in book.bids) && (p in book.bids ==> r.bids[p] == book.bids[p]))
    ensures var r := ApplyUpdate(book, u);
      && (forall p :: LastQty(u.asks, p) == Some(DeleteQty) ==> p !in r.asks)
      && (forall p :: LastQty(u.asks, p).Some? && LastQty(u.asks, p).value != DeleteQty ==>
            p in r.asks && r.asks[p] == LastQty(u.asks, p).value)
      && (forall p :: LastQty(u.asks, p).None? ==>
            (p in r.asks <==> p in book.asks) && (p in book.asks ==> r.asks[p] == book.asks[p]))
  {
  }

  /** The sides are independent: the ask side after an update depends only on
      the book's asks and id and on the update's ids and ask levels, and
      likewise for bids. */
  lemma SidesAreIndependent(book: Book, u: DepthUpdate, otherBids: map<string, string>,
                            otherAsks: map<string, string>, b: seq<Level>, a: seq<Level>)
    ensures ApplyUpdate(book.(bids := otherBids), u.(bids := b)).asks == ApplyUpdate(book, u).asks
    ensures ApplyUpdate(book.(asks := otherAsks), u.(asks := a)).bids == ApplyUpdate(book, u).bids
  {
  }

  /** Nothing of the prior book survives a snapshot. */
  lemma SnapshotDiscardsPriorBook(book1: Book, book2: Book, snap: Snapshot)
    ensures ReplaceSnapshot(book1, snap) == ReplaceSnapshot(book2, snap)
  {
  }

  /** Replacing with the same snapshot twice is replacing once. */
  lemma ReplaceSnapshotIdempotent(book: Book, snap: Snapshot)
    ensures ReplaceSnapshot(ReplaceSnapshot(book, snap), snap) == ReplaceSnapshot(book, snap)
  {
    SnapshotDiscardsPriorBook(ReplaceSnapshot(book, snap), book, snap);
  }

  /** Snapshot population does not filter the deletion marker, so the
      "no zero quantity" invariant that updates keep can start out broken. */
  lemma SnapshotMayStoreZeroQty()
    ensures var r := ReplaceSnapshot(Initial, Snapshot(1, [Level("100.00", "0")], []));
      "100.00" in r.bids && r.bids["100.00"] == DeleteQty && !NoZeroLevels(r)
  {
    var r := ReplaceSnapshot(Initial, Snapshot(1, [Level("100.00", "0")], []));
    assert LastQty([Level("100.00", "0")], "100.00") == Some("0");
  }

  /** The id after any prefix of the stream is never above the id after the
      whole stream. */
  lemma {:induction false} StreamIdsNonDecreasing(book: Book, us: seq<DepthUpdate>, i: nat)
    requires i <= |us|
    ensures ApplyStream(book, us[..i]).lastUpdateId <= ApplyStream(book, us).lastUpdateId
    decreases |us|
  {
    if i == |us| {
      assert us[..i] == us;
    } else {
      var shorter := us[..|us| - 1];
      assert shorter[..i] == us[..i];
      StreamIdsNonDecreasing(book, shorter, i);
    }
  }

  /** The stream after `j` updates is the stream after `j - 1` followed by update `j - 1`. */
  lemma StreamStep(book: Book, us: seq<DepthUpdate>, j: nat)
    requires 0 < j <= |us|
    ensures ApplyStream(book, us[..j]) == ApplyUpdate(ApplyStream(book, us[..j - 1]), us[j - 1])
  {
    assert us[..j][..j - 1] == us[..j - 1];
  }

  /** Every update the stream accepts records a strictly larger id than the
      one the book held just before it. */
  lemma StreamAcceptedIdsIncrease(book: Book, us: seq<DepthUpdate>, i: nat)
    requires i < |us|
    requires Classify(ApplyStream(book, us[..i]).lastUpdateId, us[i]) == Accepted
    ensures ApplyStream(book, us[..i + 1]).lastUpdateId == us[i].finalUpdateId
    ensures ApplyStream(book, us[..i]).lastUpdateId < ApplyStream(book, us[..i + 1]).lastUpdateId
  {
    StreamStep(book, us, i + 1);
  }

  /** An out-of-sync book stays stuck: as long as every update starts beyond
      the next expected id, the stream leaves the book exactly as it is. */
  lemma {:induction false} OutOfSyncNeverRecovers(book: Book, us: seq<DepthUpdate>)
    requires book.lastUpdateId > 0
    requires forall i :: 0 <= i < |us| ==> us[i].firstUpdateId as int > book.lastUpdateId as int + 1
    ensures ApplyStream(book, us) == book
    decreases |us|
  {
    if |us| > 0 {
      OutOfSyncNeverRecovers(book, us[..|us| - 1]);
    }
  }

  /** A book 100 ids in: an update starting at 105 is dropped, one starting at
      101 is applied. */
  lemma ContinuityExample(book: Book)
    requires book.lastUpdateId == 100
    ensures ApplyUpdate(book, DepthUpdate(105, 110, None, [], [])) == book
    ensures ApplyUpdate(book, DepthUpdate(101, 110, None, [], [])).lastUpdateId == 110
  {
  }

  /** A snapshot at 1000 holding one bid, then an update spanning 990..1005
      that deletes that bid and adds an ask. */
  lemma SnapshotThenUpdateExample()
    ensures var s := ReplaceSnapshot(Initial, Snapshot(1000, [Level("100.00", "1.5")], []));
      var r := ApplyUpdate(s, DepthUpdate(990, 1005, None, [Level("100.00", "0")], [Level("101.00", "2.0")]));
      r == Book(map[], map["101.00" := "2.0"], 1005)
  {
    var s := ReplaceSnapshot(Initial, Snapshot(1000, [Level("100.00", "1.5")], []));
    assert LastQty([Level("100.00", "1.5")], "100.00") == Some("1.5");
    assert s.bids == map["100.00" := "1.5"];
    assert s.asks == map[];
    var u := DepthUpdate(990, 1005, None, [Level("100.00", "0")], [Level("101.00", "2.0")]);
    assert LastQty(u.bids, "100.00") == Some("0");
    assert LastQty(u.asks, "101.00") == Some("2.0");
    var r := ApplyUpdate(s, u);
    assert r.bids == map[];
    assert r.asks == map["101.00" := "2.0"];
  }
}
