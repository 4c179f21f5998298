/**
 * The order pandas sorts the (Date, Ticker) group keys in: dates ascending,
 * then tickers by Python's string comparison (code point by code point, a
 * proper prefix first).
 */
module TickerOrder {

  type Date = int

  /** Python's `a < b` on strings. */
  predicate Less(a: string, b: string)
  {
    if a == [] then b != []
    else if b == [] then false
    else if a[0] != b[0] then a[0] < b[0]
    else Less(a[1..], b[1..])
  }

  lemma {:induction false} LessIrreflexive(a: string)
    ensures !Less(a, a)
  {
    if a != [] { LessIrreflexive(a[1..]); }
  }

  lemma {:induction false} LessTransitive(a: string, b: string, c: string)
    requires Less(a, b) && Less(b, c)
    ensures Less(a, c)
  {
    if a != [] && b != [] && c != [] && a[0] == b[0] && b[0] == c[0] {
      LessTransitive(a[1..], b[1..], c[1..]);
    }
  }

  lemma {:induction false} LessTotal(a: string, b: string)
    ensures a == b || Less(a, b) || Less(b, a)
  {
    if a != [] && b != [] && a[0] == b[0] {
      LessTotal(a[1..], b[1..]);
      if a[1..] == b[1..] {
        assert a == [a[0]] + a[1..] && b == [b[0]] + b[1..];
      }
    }
  }

  /** The group key (d1, t1) sorts strictly before (d2, t2). */
  predicate Before(d1: Date, t1: string, d2: Date, t2: string)
  {
    d1 < d2 || (d1 == d2 && Less(t1, t2))
  }

  /** `Before` is a strict total order on (Date, Ticker) keys. */
  lemma BeforeIrreflexive(d: Date, t: string)
    ensures !Before(d, t, d, t)
  {
    LessIrreflexive(t);
  }

  lemma BeforeTransitive(d1: Date, t1: string, d2: Date, t2: string, d3: Date, t3: string)
    requires Before(d1, t1, d2, t2) && Before(d2, t2, d3, t3)
    ensures Before(d1, t1, d3, t3)
  {
    if d1 == d2 && d2 == d3 { LessTransitive(t1, t2, t3); }
  }

  lemma BeforeTotal(d1: Date, t1: string, d2: Date, t2: string)
    ensures (d1 == d2 && t1 == t2) || Before(d1, t1, d2, t2) || Before(d2, t2, d1, t1)
  {
    LessTotal(t1, t2);
  }
}
