/**
 * `pivot_table(index=['Date', 'Ticker'], columns='Attribute', values='value',
 * aggfunc='first')` on the tidy (Date, Ticker, Attribute, value) cells.
 *
 * pandas groups the cells by (Date, Ticker, Attribute) in sorted key order,
 * keeps the first non-missing value of each group, drops groups that have
 * none, and unstacks Attribute into columns. A row of the result is one
 * (Date, Ticker) key with a map from attribute to value; an attribute that is
 * missing from the map is a NaN cell of the pivoted frame, and a key whose
 * every attribute is missing does not appear at all.
 */
module Pivot {
  import opened Wrappers
  import opened TickerOrder

  /** One long cell: a melted value with its compound key split in two. */
  datatype Cell = Cell(date: Date, ticker: string, attribute: string, value: Option<real>)

  /** One row of the pivoted table: a (Date, Ticker) key and its attribute columns. */
  datatype LongRow = LongRow(date: Date, ticker: string, attrs: map<string, real>)

  /** Rows are strictly increasing in (Date, Ticker): each key at most once, in order. */
  predicate Sorted(rows: seq<LongRow>)
  {
    forall i, j :: 0 <= i < j < |rows| ==> Before(rows[i].date, rows[i].ticker, rows[j].date, rows[j].ticker)
  }

  /** No row is entirely missing (pandas' `dropna(how='all')`). */
  predicate NoEmptyRows(rows: seq<LongRow>)
  {
    forall i :: 0 <= i < |rows| ==> |rows[i].attrs| > 0
  }

  /** Some row has the key (d, t). */
  predicate HasRow(rows: seq<LongRow>, d: Date, t: string)
  {
    exists i :: 0 <= i < |rows| && rows[i].date == d && rows[i].ticker == t
  }

  /** The value in column `a` of the first row with key (d, t), if any. */
  function Lookup(rows: seq<LongRow>, d: Date, t: string, a: string): Option<real>
  {
    if rows == [] then None
    else if rows[0].date == d && rows[0].ticker == t then
      (if a in rows[0].attrs then Some(rows[0].attrs[a]) else None)
    else Lookup(rows[1..], d, t, a)
  }

  /** Cell `c` belongs to the group (d, t, a). */
  predicate Matches(c: Cell, d: Date, t: string, a: string)
  {
    c.date == d && c.ticker == t && c.attribute == a
  }

  /** `aggfunc='first'`: the first non-missing value of the group (d, t, a), in cell order. */
  function FirstValue(cells: seq<Cell>, d: Date, t: string, a: string): Option<real>
  {
    if cells == [] then None
    else if Matches(cells[0], d, t, a) && cells[0].value.Some? then cells[0].value
    else FirstValue(cells[1..], d, t, a)
  }

  /**
   * Adds value `v` for (d, t, a) to the sorted rows: a new row at its sorted
   * place when the key is new, the value in a new column when the key exists
   * without it, and nothing when the column is already filled.
   */
  function Place(rows: seq<LongRow>, d: Date, t: string, a: string, v: real): seq<LongRow>
  {
    if rows == [] then [LongRow(d, t, map[a := v])]
    else if rows[0].date == d && rows[0].ticker == t then
      [rows[0].(attrs := if a in rows[0].attrs then rows[0].attrs else rows[0].attrs[a := v])] + rows[1..]
    else if Before(d, t, rows[0].date, rows[0].ticker) then [LongRow(d, t, map[a := v])] + rows
    else [rows[0]] + Place(rows[1..], d, t, a, v)
  }

  /** Feeds one cell to the aggregation; a missing value is skipped. */
  function Insert(rows: seq<LongRow>, c: Cell): seq<LongRow>
  {
    if c.value.Some? then Place(rows, c.date, c.ticker, c.attribute, c.value.value) else rows
  }

  /** The pivoted table: the cells are aggregated in their order. */
  function PivotFirst(cells: seq<Cell>): seq<LongRow>
  {
    if cells == [] then [] else Insert(PivotFirst(cells[..|cells| - 1]), cells[|cells| - 1])
  }

  // ----- Lemmas about Place -----

  /** Every row of `Place` sorts after a key that sorts before all rows and before (d, t). */
  lemma {:induction false} PlaceBounded(rows: seq<LongRow>, d: Date, t: string, a: string, v: real, ld: Date, lt: string)
    requires forall i :: 0 <= i < |rows| ==> Before(ld, lt, rows[i].date, rows[i].ticker)
    requires Before(ld, lt, d, t)
    ensures forall i :: 0 <= i < |Place(rows, d, t, a, v)| ==>
      Before(ld, lt, Place(rows, d, t, a, v)[i].date, Place(rows, d, t, a, v)[i].ticker)
  {
    if rows != [] && !(rows[0].date == d && rows[0].ticker == t) && !Before(d, t, rows[0].date, rows[0].ticker) {
      PlaceBounded(rows[1..], d, t, a, v, ld, lt);
      var p := Place(rows, d, t, a, v);
      assert p == [rows[0]] + Place(rows[1..], d, t, a, v);
    }
  }

  /** A key before the first row of a sorted table sorts before every row. */
  lemma BeforeAll(rows: seq<LongRow>, d: Date, t: string)
    requires Sorted(rows) && rows != []
    requires Before(d, t, rows[0].date, rows[0].ticker)
    ensures forall i :: 0 <= i < |rows| ==> Before(d, t, rows[i].date, rows[i].ticker)
  {
    forall i | 0 < i < |rows| ensures Before(d, t, rows[i].date, rows[i].ticker) {
      BeforeTransitive(d, t, rows[0].date, rows[0].ticker, rows[i].date, rows[i].ticker);
    }
  }

  /** `Place` keeps the table sorted and keeps every row non-empty. */
  lemma {:induction false} PlaceSorted(rows: seq<LongRow>, d: Date, t: string, a: string, v: real)
    requires Sorted(rows) && NoEmptyRows(rows)
    ensures Sorted(Place(rows, d, t, a, v)) && NoEmptyRows(Place(rows, d, t, a, v))
  {
    var p := Place(rows, d, t, a, v);
    if rows == [] {
    } else if rows[0].date == d && rows[0].ticker == t {
      assert forall i :: 0 <= i < |p| ==> p[i].date == rows[i].date && p[i].ticker == rows[i].ticker;
      assert |p[0].attrs| > 0 by {
        if a !in rows[0].attrs { assert a in p[0].attrs; }
      }
    } else if Before(d, t, rows[0].date, rows[0].ticker) {
      BeforeAll(rows, d, t);
      assert forall i :: 0 < i < |p| ==> p[i] == rows[i - 1];
      assert a in p[0].attrs;
    } else {
      BeforeTotal(d, t, rows[0].date, rows[0].ticker);
      var rest := rows[1..];
      assert Sorted(rest);
      assert forall i :: 0 <= i < |rest| ==> Before(rows[0].date, rows[0].ticker, rest[i].date, rest[i].ticker) by {
        forall i | 0 <= i < |rest| ensures Before(rows[0].date, rows[0].ticker, rest[i].date, rest[i].ticker) {
          assert rest[i] == rows[i + 1];
        }
      }
      PlaceSorted(rest, d, t, a, v);
      PlaceBounded(rest, d, t, a, v, rows[0].date, rows[0].ticker);
      assert p == [rows[0]] + Place(rest, d, t, a, v);
    }
  }

  /** No row of the table has the key (d, t), so every lookup of it misses. */
  lemma {:induction false} LookupAbsent(rows: seq<LongRow>, d: Date, t: string, a: string)
    requires forall i :: 0 <= i < |rows| ==> !(rows[i].date == d && rows[i].ticker == t)
    ensures Lookup(rows, d, t, a) == None
  {
    if rows != [] {
      assert forall i :: 0 <= i < |rows[1..]| ==> rows[1..][i] == rows[i + 1];
      LookupAbsent(rows[1..], d, t, a);
    }
  }

  /**
   * After `Place`, the cell (d, t, a) holds `v` if it was empty and keeps its
   * value otherwise; every other cell is unchanged.
   */
  lemma {:induction false} PlaceLookup(rows: seq<LongRow>, d: Date, t: string, a: string, v: real,
                                        d': Date, t': string, a': string)
    requires Sorted(rows)
    ensures Lookup(Place(rows, d, t, a, v), d', t', a') ==
      if d' == d && t' == t && a' == a && Lookup(rows, d, t, a).None? then Some(v)
      else Lookup(rows, d', t', a')
  {
    var p := Place(rows, d, t, a, v);
    if rows == [] {
    } else if rows[0].date == d && rows[0].ticker == t {
      assert p[1..] == rows[1..];
    } else if Before(d, t, rows[0].date, rows[0].ticker) {
      assert p[1..] == rows;
      if d' == d && t' == t {
        BeforeAll(rows, d, t);
        forall i | 0 <= i < |rows| ensures !(rows[i].date == d && rows[i].ticker == t) {
          if rows[i].date == d && rows[i].ticker == t { BeforeIrreflexive(d, t); }
        }
        LookupAbsent(rows, d, t, a);
        LookupAbsent(rows, d, t, a');
      }
    } else {
      assert p[1..] == Place(rows[1..], d, t, a, v);
      assert Sorted(rows[1..]);
      PlaceLookup(rows[1..], d, t, a, v, d', t', a');
    }
  }

  // ----- Lemmas about FirstValue -----

  /** Appending a cell changes the first value of a group only when the group had none. */
  lemma {:induction false} FirstValueSnoc(cells: seq<Cell>, c: Cell, d: Date, t: string, a: string)
    ensures FirstValue(cells + [c], d, t, a) ==
      if FirstValue(cells, d, t, a).Some? then FirstValue(cells, d, t, a)
      else if Matches(c, d, t, a) && c.value.Some? then c.value
      else None
  {
    if cells == [] {
      assert ([] + [c])[1..] == [];
    } else {
      assert (cells + [c])[1..] == cells[1..] + [c];
      FirstValueSnoc(cells[1..], c, d, t, a);
    }
  }

  /** The first value of a group is the value of some non-missing cell of that group. */
  lemma {:induction false} FirstValueSource(cells: seq<Cell>, d: Date, t: string, a: string)
    requires FirstValue(cells, d, t, a).Some?
    ensures exists k :: 0 <= k < |cells| && Matches(cells[k], d, t, a) && cells[k].value == FirstValue(cells, d, t, a)
  {
    if !(Matches(cells[0], d, t, a) && cells[0].value.Some?) {
      FirstValueSource(cells[1..], d, t, a);
      var k :| 0 <= k < |cells[1..]| && Matches(cells[1..][k], d, t, a) && cells[1..][k].value == FirstValue(cells, d, t, a);
      assert cells[k + 1] == cells[1..][k];
    }
  }

  /** A group with a non-missing cell has a first value. */
  lemma {:induction false} FirstValueExists(cells: seq<Cell>, k: nat, d: Date, t: string, a: string)
    requires k < |cells| && Matches(cells[k], d, t, a) && cells[k].value.Some?
    ensures FirstValue(cells, d, t, a).Some?
  {
    if k > 0 && !(Matches(cells[0], d, t, a) && cells[0].value.Some?) {
      assert cells[1..][k - 1] == cells[k];
      FirstValueExists(cells[1..], k - 1, d, t, a);
    }
  }

  /** The first value is the earliest non-missing value of the group: none before it is non-missing. */
  lemma {:induction false} FirstValueIsEarliest(cells: seq<Cell>, k: nat, d: Date, t: string, a: string)
    requires k < |cells| && Matches(cells[k], d, t, a) && cells[k].value.Some?
    requires forall i :: 0 <= i < k ==> !(Matches(cells[i], d, t, a) && cells[i].value.Some?)
    ensures FirstValue(cells, d, t, a) == cells[k].value
  {
    if k > 0 {
      assert forall i :: 0 <= i < k - 1 ==> cells[1..][i] == cells[i + 1];
      FirstValueIsEarliest(cells[1..], k - 1, d, t, a);
    }
  }

  /** When every cell of a group holds the same value `v`, the group's first value is `v` (None without cells). */
  lemma {:induction false} FirstValueUniform(cells: seq<Cell>, v: Option<real>, d: Date, t: string, a: string)
    requires forall k :: 0 <= k < |cells| && Matches(cells[k], d, t, a) ==> cells[k].value == v
    ensures FirstValue(cells, d, t, a) ==
      if exists k :: 0 <= k < |cells| && Matches(cells[k], d, t, a) then v else None
  {
    if cells != [] {
      var rest := cells[1..];
      assert forall k :: 0 <= k < |rest| ==> rest[k] == cells[k + 1];
      FirstValueUniform(rest, v, d, t, a);
      if exists k :: 0 <= k < |rest| && Matches(rest[k], d, t, a) {
        var k :| 0 <= k < |rest| && Matches(rest[k], d, t, a);
        assert Matches(cells[k + 1], d, t, a);
      }
      if exists k :: 0 <= k < |cells| && Matches(cells[k], d, t, a) {
        var k :| 0 <= k < |cells| && Matches(cells[k], d, t, a);
        if k > 0 { assert Matches(rest[k - 1], d, t, a); }
      }
    }
  }

  // ----- The pivot -----

  /**
   * The pivoted table is sorted by (Date, Ticker), so each pair appears at most
   * once; no row is entirely missing; and each of its cells holds the first
   * non-missing value of its group, so nothing is fabricated and duplicates
   * resolve to the first value.
   */
  lemma {:induction false} PivotLookup(cells: seq<Cell>)
    ensures Sorted(PivotFirst(cells)) && NoEmptyRows(PivotFirst(cells))
    ensures forall d, t, a :: Lookup(PivotFirst(cells), d, t, a) == FirstValue(cells, d, t, a)
  {
    if cells != [] {
      var init, c := cells[..|cells| - 1], cells[|cells| - 1];
      assert cells == init + [c];
      PivotLookup(init);
      var prev := PivotFirst(init);
      forall d, t, a ensures Lookup(PivotFirst(cells), d, t, a) == FirstValue(cells, d, t, a) {
        FirstValueSnoc(init, c, d, t, a);
        if c.value.Some? {
          PlaceLookup(prev, c.date, c.ticker, c.attribute, c.value.value, d, t, a);
        }
      }
      if c.value.Some? {
        PlaceSorted(prev, c.date, c.ticker, c.attribute, c.value.value);
      }
    }
  }

  /** In a sorted table, the lookup of a row's own key reads that row. */
  lemma {:induction false} LookupRow(rows: seq<LongRow>, i: nat, a: string)
    requires Sorted(rows) && i < |rows|
    ensures Lookup(rows, rows[i].date, rows[i].ticker, a) ==
      if a in rows[i].attrs then Some(rows[i].attrs[a]) else None
  {
    if i == 0 {
    } else {
      if rows[0].date == rows[i].date && rows[0].ticker == rows[i].ticker {
        BeforeIrreflexive(rows[0].date, rows[0].ticker);
      }
      assert rows[1..][i - 1] == rows[i];
      assert Sorted(rows[1..]);
      LookupRow(rows[1..], i - 1, a);
    }
  }

  /** A lookup that finds a value found it in a row with that key. */
  lemma {:induction false} LookupHasRow(rows: seq<LongRow>, d: Date, t: string, a: string)
    requires Lookup(rows, d, t, a).Some?
    ensures HasRow(rows, d, t)
  {
    if !(rows[0].date == d && rows[0].ticker == t) {
      LookupHasRow(rows[1..], d, t, a);
      var i :| 0 <= i < |rows[1..]| && rows[1..][i].date == d && rows[1..][i].ticker == t;
      assert rows[i + 1] == rows[1..][i];
    }
  }

  /**
   * The pivoted table has a row for (d, t) exactly when some cell with that
   * Date and Ticker holds a value: no row is fabricated and none is lost.
   */
  lemma PivotRows(cells: seq<Cell>, d: Date, t: string)
    ensures HasRow(PivotFirst(cells), d, t) <==>
      exists k :: 0 <= k < |cells| && cells[k].date == d && cells[k].ticker == t && cells[k].value.Some?
  {
    var rows := PivotFirst(cells);
    PivotLookup(cells);
    if HasRow(rows, d, t) {
      var i :| 0 <= i < |rows| && rows[i].date == d && rows[i].ticker == t;
      var a :| a in rows[i].attrs;
      LookupRow(rows, i, a);
      FirstValueSource(cells, d, t, a);
    }
    if exists k :: 0 <= k < |cells| && cells[k].date == d && cells[k].ticker == t && cells[k].value.Some? {
      var k :| 0 <= k < |cells| && cells[k].date == d && cells[k].ticker == t && cells[k].value.Some?;
      FirstValueExists(cells, k, d, t, cells[k].attribute);
      LookupHasRow(rows, d, t, cells[k].attribute);
    }
  }
}
