/** The order in which the order book keeps its price keys.

    Prices are stored as the raw strings the venue sends and compared with
    std::string's operator<: lexicographically on characters, a proper
    prefix before any of its extensions. No decimal interpretation takes place,
    so "10" sorts before "9". Asks iterate in this order (std::less), bids in
    the reverse order (std::greater).
 */
module StringOrder {

  /** Lexicographic "strictly less than" on strings. No price comes before
      itself, and a proper prefix comes before each of its extensions. */
  predicate Less(a: string, b: string)
    ensures Less(a, b) ==> a != b
    ensures a < b ==> Less(a, b)
    decreases |a|
  {
    if |a| == 0 then |b| > 0
    else if |b| == 0 then false
    else if a[0] != b[0] then a[0] < b[0]
    else Less(a[1..], b[1..])
  }

  /** The textbook definition: a is a proper prefix of b, or the two agree up to
      some position k where a has the smaller character. */
  ghost predicate LexicographicallyBelow(a: string, b: string) {
    || a < b
    || exists k :: 0 <= k < |a| && k < |b| && a[..k] == b[..k] && a[k] < b[k]
  }

  lemma {:induction false} LessIsLexicographic(a: string, b: string)
    ensures Less(a, b) <==> LexicographicallyBelow(a, b)
    decreases |a|
  {
    if |a| == 0 {
      if |b| > 0 {
        assert a == b[..0];
      }
    } else if |b| == 0 {
    } else if a[0] != b[0] {
      if a[0] < b[0] {
        assert a[..0] == b[..0];
      } else {
        assert !(a < b);
        forall k | 0 <= k < |a| && k < |b|
          ensures a[..k] == b[..k] ==> k == 0
        {
          if k > 0 {
            assert a[..k][0] == a[0] && b[..k][0] == b[0];
          }
        }
      }
    } else {
      LessIsLexicographic(a[1..], b[1..]);
      PrefixOfTails(a, b);
      if Less(a[1..], b[1..]) {
        if a[1..] < b[1..] {
          assert a == [a[0]] + a[1..] && b == [b[0]] + b[1..];
          assert a <= b;
        } else {
          var k :| 0 <= k < |a[1..]| && k < |b[1..]| && a[1..][..k] == b[1..][..k] && a[1..][k] < b[1..][k];
          assert a[..k + 1] == [a[0]] + a[1..][..k];
          assert b[..k + 1] == [b[0]] + b[1..][..k];
        }
      } else {
        forall k | 0 <= k < |a| && k < |b| && a[..k] == b[..k]
          ensures !(a[k] < b[k])
        {
          if k > 0 {
            assert a[1..][..k - 1] == a[..k][1..];
            assert b[1..][..k - 1] == b[..k][1..];
            assert a[1..][k - 1] == a[k];
          }
        }
      }
    }
  }

  lemma PrefixOfTails(a: string, b: string)
    requires |a| > 0 && |b| > 0 && a[0] == b[0]
    ensures a < b <==> a[1..] < b[1..]
  {
    assert a == [a[0]] + a[1..] && b == [b[0]] + b[1..];
  }

  lemma {:induction false} LessIrreflexive(a: string)
    ensures !Less(a, a)
    decreases |a|
  {
    if |a| > 0 {
      LessIrreflexive(a[1..]);
    }
  }

  lemma {:induction false} LessTransitive(a: string, b: string, c: string)
    requires Less(a, b) && Less(b, c)
    ensures Less(a, c)
    decreases |a|
  {
    if |a| > 0 && a[0] == b[0] && b[0] == c[0] {
      LessTransitive(a[1..], b[1..], c[1..]);
    }
  }

  /** Any two distinct strings are comparable. */
  lemma {:induction false} LessTotal(a: string, b: string)
    ensures a == b || Less(a, b) || Less(b, a)
    decreases |a|
  {
    if |a| > 0 && |b| > 0 && a[0] == b[0] {
      assert a == [a[0]] + a[1..] && b == [b[0]] + b[1..];
      LessTotal(a[1..], b[1..]);
    }
  }

  lemma {:induction false} LessAsymmetric(a: string, b: string)
    requires Less(a, b)
    ensures !Less(b, a)
  {
    if Less(b, a) {
      LessTransitive(a, b, a);
      LessIrreflexive(a);
    }
  }

  /** Raw text order is not numeric order: the ask priced "10" is listed ahead of
      the ask priced "9", and "100.00" ahead of "99.5". */
  lemma TextOrderIsNotNumeric()
    ensures Less("10", "9") && !Less("9", "10")
    ensures Less("100.00", "99.5")
  {
  }

  /** One side of the book: asks ascending, bids descending. */
  datatype Side = Bid | Ask

  /** Whether price a is visited before price b when iterating this side.
      No price precedes itself, and of two distinct prices one precedes the
      other: a distinct price not visited first is the larger ask or the
      smaller bid. */
  predicate Before(side: Side, a: string, b: string)
    ensures Before(side, a, b) ==> a != b
    ensures a != b && !Before(side, a, b) ==>
      match side
      case Ask => Less(b, a)
      case Bid => Less(a, b)
  {
    LessTotal(a, b);
    match side
    case Ask => Less(a, b)
    case Bid => Less(b, a)
  }

  lemma BeforeIrreflexive(side: Side, a: string)
    ensures !Before(side, a, a)
  {
    LessIrreflexive(a);
  }

  lemma BeforeTransitive(side: Side, a: string, b: string, c: string)
    requires Before(side, a, b) && Before(side, b, c)
    ensures Before(side, a, c)
  {
    match side
    case Ask => LessTransitive(a, b, c);
    case Bid => LessTransitive(c, b, a);
  }

  lemma BeforeTotal(side: Side, a: string, b: string)
    ensures a == b || Before(side, a, b) || Before(side, b, a)
  {
    LessTotal(a, b);
  }

  lemma BeforeAsymmetric(side: Side, a: string, b: string)
    requires Before(side, a, b)
    ensures !Before(side, b, a)
  {
    match side
    case Ask => LessAsymmetric(a, b);
    case Bid => LessAsymmetric(b, a);
  }
}
