/** The top-of-book view: the first `depth` levels of each side in that side's
    iteration order, asks ascending and bids descending by raw price string.
    The console output itself is not modelled; the view is the sequence of
    levels that would be written. */
module BookView {
  import opened StringOrder
  import opened OrderBook

  /** Prices strictly in side order (so no price repeats). */
  predicate InSideOrder(side: Side, ls: seq<Level>) {
    forall i, j :: 0 <= i < j < |ls| ==> Before(side, ls[i].price, ls[j].price)
  }

  /** Every listed level is a level of `m`, with its stored quantity. */
  predicate LevelsOf(m: map<string, string>, ls: seq<Level>) {
    forall i :: 0 <= i < |ls| ==> ls[i].price in m && m[ls[i].price] == ls[i].qty
  }

  /** No price of `m` left out of `ls` would be visited before a listed one:
      `ls` is the start of `m` in side order. */
  predicate IsHead(side: Side, m: map<string, string>, ls: seq<Level>) {
    forall p, i :: p in m && p !in Prices(ls) && 0 <= i < |ls| ==> Before(side, ls[i].price, p)
  }

  /** How many levels a loop bounded by `depth` visits in a side of `size` levels. */
  function ViewLength(depth: int, size: nat): nat {
    if depth <= 0 then 0 else if depth < size then depth else size
  }

  /** `ls` is what iterating side `side` of `m` from the start for at most
      `depth` steps visits. */
  predicate IsTopOf(side: Side, m: map<string, string>, depth: int, ls: seq<Level>) {
    && |ls| == ViewLength(depth, |m|)
    && InSideOrder(side, ls)
    && LevelsOf(m, ls)
    && IsHead(side, m, ls)
  }

  /** The price a side's iteration visits first among `keys`: the lowest ask
      or the highest bid. */
  method BestPrice(side: Side, keys: set<string>) returns (k: string)
    requires keys != {}
    ensures k in keys
    ensures forall x :: x in keys && x != k ==> Before(side, k, x)
  {
    k :| k in keys;
    var rest := keys - {k};
    while rest != {}
      invariant rest <= keys && k in keys && k !in rest
      invariant forall x :: x in keys - rest && x != k ==> Before(side, k, x)
      decreases |rest|
    {
      var x :| x in rest;
      if Before(side, x, k) {
        forall y | y in keys - rest && y != x
          ensures Before(side, x, y)
        {
          if y != k {
            BeforeTransitive(side, x, k, y);
          }
        }
        k := x;
      } else {
        BeforeTotal(side, k, x);
      }
      rest := rest - {x};
    }
  }

  /** The levels visited on one side: at most `depth` of them, starting from
      the best price and continuing in side order. */
  method TopLevels(side: Side, m: map<string, string>, depth: int) returns (r: seq<Level>)
    ensures IsTopOf(side, m, depth, r)
  {
    r := [];
    var rest := m.Keys;
    var count := 0;
    while rest != {} && count < depth
      invariant count == |r|
      invariant count == 0 || count <= depth
      invariant rest == m.Keys - Prices(r)
      invariant |rest| + count == |m|
      invariant InSideOrder(side, r) && LevelsOf(m, r) && IsHead(side, m, r)
      decreases |rest|
    {
      var p := BestPrice(side, rest);
      ExtendHead(side, m, r, rest, p);
      r := r + [Level(p, m[p])];
      rest := rest - {p};
      count := count + 1;
    }
  }

  /** Appending the best remaining price keeps a list the ordered head of `m`. */
  lemma ExtendHead(side: Side, m: map<string, string>, r: seq<Level>, rest: set<string>, p: string)
    requires rest == m.Keys - Prices(r)
    requires InSideOrder(side, r) && LevelsOf(m, r) && IsHead(side, m, r)
    requires p in rest && forall x :: x in rest && x != p ==> Before(side, p, x)
    ensures p in m
    ensures rest - {p} == m.Keys - Prices(r + [Level(p, m[p])])
    ensures InSideOrder(side, r + [Level(p, m[p])])
    ensures LevelsOf(m, r + [Level(p, m[p])])
    ensures IsHead(side, m, r + [Level(p, m[p])])
  {
    var r' := r + [Level(p, m[p])];
    PricesAppend(r, Level(p, m[p]));
    forall i, j | 0 <= i < j < |r'|
      ensures Before(side, r'[i].price, r'[j].price)
    {
      if j < |r| {
        assert r'[i] == r[i] && r'[j] == r[j];
      } else {
        assert r'[i] == r[i];
      }
    }
    forall q, i | q in m && q !in Prices(r') && 0 <= i < |r'|
      ensures Before(side, r'[i].price, q)
    {
      if i < |r| {
        assert r'[i] == r[i];
      }
    }
  }

  /** The view of the whole book: the first `depth` asks, then the first
      `depth` bids. With no "0" quantity stored, none is shown. */
  method TopOfBook(book: Book, depth: int) returns (asks: seq<Level>, bids: seq<Level>)
    ensures IsTopOf(Ask, book.asks, depth, asks)
    ensures IsTopOf(Bid, book.bids, depth, bids)
    ensures NoZeroLevels(book) ==>
      (forall i :: 0 <= i < |asks| ==> asks[i].qty != DeleteQty) &&
      (forall i :: 0 <= i < |bids| ==> bids[i].qty != DeleteQty)
  {
    asks := TopLevels(Ask, book.asks, depth);
    bids := TopLevels(Bid, book.bids, depth);
  }

  /** The view is fully determined: two level lists that both satisfy
      `IsTopOf` for the same side, map and depth are equal. */
  lemma TopOfIsUnique(side: Side, m: map<string, string>, depth: int, r1: seq<Level>, r2: seq<Level>)
    requires IsTopOf(side, m, depth, r1) && IsTopOf(side, m, depth, r2)
    ensures r1 == r2
  {
    forall k | 0 <= k < |r1|
      ensures r1[k].price == r2[k].price
    {
      SamePriceAt(side, m, depth, r1, r2, k);
    }
  }

  /** Induction step for `TopOfIsUnique`: the two lists agree at position `k`. */
  lemma {:induction false} SamePriceAt(side: Side, m: map<string, string>, depth: int,
                                       r1: seq<Level>, r2: seq<Level>, k: nat)
    requires IsTopOf(side, m, depth, r1) && IsTopOf(side, m, depth, r2)
    requires k < |r1|
    ensures r1[k].price == r2[k].price
    decreases k
  {
    forall i | 0 <= i < k
      ensures r1[i].price == r2[i].price
    {
      SamePriceAt(side, m, depth, r1, r2, i);
    }
    var a, b := r1[k].price, r2[k].price;
    NotAheadOf(side, m, depth, r1, r2, k);
    NotAheadOf(side, m, depth, r2, r1, k);
    BeforeTotal(side, a, b);
  }

  /** Two views that agree before position `k`: the first's price at `k` is
      not ahead of the second's. */
  lemma NotAheadOf(side: Side, m: map<string, string>, depth: int,
                   r1: seq<Level>, r2: seq<Level>, k: nat)
    requires IsTopOf(side, m, depth, r1) && IsTopOf(side, m, depth, r2)
    requires k < |r1|
    requires forall i :: 0 <= i < k ==> r1[i].price == r2[i].price
    ensures !Before(side, r1[k].price, r2[k].price)
  {
    var a, b := r1[k].price, r2[k].price;
    BeforeIrreflexive(side, a);
    if Before(side, b, a) {
      BeforeAsymmetric(side, b, a);
    }
    if a in Prices(r2) {
      var j :| 0 <= j < |r2| && r2[j].price == a;
    }
  }
}
