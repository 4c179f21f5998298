/**
 * The flattened column names of the wide table: a (ticker, attribute) pair is
 * written as `ticker + "_" + attribute`, and the melted column is later split
 * back on every `'_'` (Python's `str.split('_')`).
 */
module CompoundKey {

  /** The separator between ticker and attribute in a flattened column name. */
  const Sep: char := '_'

  /** Number of occurrences of `c` in `s`. */
  function Count(s: string, c: char): (n: nat)
    ensures n == 0 <==> c !in s
    ensures n <= |s|
  {
    if s == [] then 0 else (if s[0] == c then 1 else 0) + Count(s[1..], c)
  }

  /**
   * `s.split(sep)` with an explicit separator: every occurrence of `sep` cuts,
   * empty pieces are kept, and the empty string gives `[""]`.
   */
  function Split(s: string, sep: char): (parts: seq<string>)
    ensures |parts| == Count(s, sep) + 1
    ensures forall i :: 0 <= i < |parts| ==> sep !in parts[i]
  {
    if s == [] then [""]
    else
      var rest := Split(s[1..], sep);
      if s[0] == sep then [""] + rest
      else [[s[0]] + rest[0]] + rest[1..]
  }

  /** `sep.join(parts)`. */
  function Join(parts: seq<string>, sep: char): string
    requires |parts| > 0
  {
    if |parts| == 1 then parts[0] else parts[0] + [sep] + Join(parts[1..], sep)
  }

  /** The flattened name `f"{ticker}_{attribute}"` of one column. */
  function Key(ticker: string, attribute: string): (k: string)
    ensures k == Join([ticker, attribute], Sep)
  {
    ticker + [Sep] + attribute
  }

  lemma {:induction false} CountAppend(a: string, b: string, c: char)
    ensures Count(a + b, c) == Count(a, c) + Count(b, c)
  {
    if a != [] {
      assert (a + b)[1..] == a[1..] + b;
      CountAppend(a[1..], b, c);
    } else {
      assert a + b == b;
    }
  }

  /** Prefixing a character to the first piece prefixes it to the join. */
  lemma JoinCons(c: char, parts: seq<string>, sep: char)
    requires |parts| > 0
    ensures Join([[c] + parts[0]] + parts[1..], sep) == [c] + Join(parts, sep)
  {
    var q := [[c] + parts[0]] + parts[1..];
    if |parts| > 1 {
      assert q[1..] == parts[1..];
    }
  }

  /** Joining the pieces of a split gives back the original string. */
  lemma {:induction false} JoinSplit(s: string, sep: char)
    ensures Join(Split(s, sep), sep) == s
  {
    if |s| > 0 {
      JoinSplit(s[1..], sep);
      JoinSplitStep(s, sep);
    }
  }

  /** One step of `JoinSplit`: the first character goes back in front. */
  lemma JoinSplitStep(s: string, sep: char)
    requires |s| > 0 && Join(Split(s[1..], sep), sep) == s[1..]
    ensures Join(Split(s, sep), sep) == s
  {
    var rest := Split(s[1..], sep);
    assert s == [s[0]] + s[1..];
    if s[0] == sep {
      assert ([""] + rest)[1..] == rest;
    } else {
      JoinCons(s[0], rest, sep);
    }
  }

  /** A string without the separator splits into itself alone. */
  lemma {:induction false} SplitNoSep(a: string, sep: char)
    requires sep !in a
    ensures Split(a, sep) == [a]
  {
    if a != [] {
      assert sep !in a[1..] by {
        forall i | 0 <= i < |a[1..]| ensures a[1..][i] != sep { assert a[1..][i] == a[i + 1]; }
      }
      SplitNoSep(a[1..], sep);
      assert a == [a[0]] + a[1..];
    }
  }

  /** Splitting a string that starts with a non-separator extends the first piece. */
  lemma SplitCons(c: char, s: string, sep: char)
    requires c != sep
    ensures Split([c] + s, sep) == [[c] + Split(s, sep)[0]] + Split(s, sep)[1..]
  {
    assert ([c] + s)[1..] == s;
  }

  /** Splitting `a + sep + b`, with no separator in `a`, cuts exactly after `a`. */
  lemma {:induction false} SplitAfterPiece(a: string, sep: char, b: string)
    requires sep !in a
    ensures Split(a + [sep] + b, sep) == [a] + Split(b, sep)
  {
    if |a| == 0 {
      var s := a + [sep] + b;
      assert s[0] == sep && s[1..] == b;
    } else {
      NotInTail(a, sep);
      SplitAfterPiece(a[1..], sep, b);
      PieceStep(a, sep, b);
    }
  }

  /** A character missing from a string is missing from its tail. */
  lemma NotInTail(a: string, c: char)
    requires |a| > 0 && c !in a
    ensures c !in a[1..]
  {
    forall i | 0 <= i < |a[1..]| ensures a[1..][i] != c { assert a[1..][i] == a[i + 1]; }
  }

  /** One step of `SplitAfterPiece`: the first character of `a` joins the first piece. */
  lemma PieceStep(a: string, sep: char, b: string)
    requires |a| > 0 && a[0] != sep
    requires Split(a[1..] + [sep] + b, sep) == [a[1..]] + Split(b, sep)
    ensures Split(a + [sep] + b, sep) == [a] + Split(b, sep)
  {
    var tail := a[1..] + [sep] + b;
    assert a + [sep] + b == [a[0]] + tail;
    SplitCons(a[0], tail, sep);
    assert [a[0]] + a[1..] == a;
  }

  /** Splitting a join of separator-free pieces gives back the pieces. */
  lemma {:induction false} SplitJoin(parts: seq<string>, sep: char)
    requires |parts| > 0
    requires forall i :: 0 <= i < |parts| ==> sep !in parts[i]
    ensures Split(Join(parts, sep), sep) == parts
  {
    if |parts| == 1 {
      SplitNoSep(parts[0], sep);
    } else {
      SplitJoin(parts[1..], sep);
      SplitAfterPiece(parts[0], sep, Join(parts[1..], sep));
      assert parts == [parts[0]] + parts[1..];
    }
  }

  /** The compound key splits back into exactly (ticker, attribute) when neither holds `'_'`. */
  lemma KeyRoundTrip(ticker: string, attribute: string)
    requires Sep !in ticker && Sep !in attribute
    ensures Split(Key(ticker, attribute), Sep) == [ticker, attribute]
  {
    SplitJoin([ticker, attribute], Sep);
  }

  /**
   * The compound key splits into exactly two pieces if and only if neither part
   * holds `'_'`; otherwise into more than two, which cannot fill the two target
   * columns.
   */
  lemma KeyPieces(ticker: string, attribute: string)
    ensures |Split(Key(ticker, attribute), Sep)| >= 2
    ensures |Split(Key(ticker, attribute), Sep)| == 2 <==> Sep !in ticker && Sep !in attribute
  {
    CountAppend(ticker, [Sep], Sep);
    CountAppend(ticker + [Sep], attribute, Sep);
    assert Count([Sep], Sep) == 1;
  }
}
