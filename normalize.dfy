/**
 * The wide-to-long normalisation of the downloaded table: the two-level
 * (attribute, ticker) column header is flattened to `ticker_attribute` names,
 * the table is melted into (Date, name, value) rows, each name is split back on
 * `'_'` into Ticker and Attribute, and the result is pivoted to one row per
 * (Date, Ticker) with one column per attribute.
 */
module Normalize {
  import opened Wrappers
  import opened TickerOrder
  import opened CompoundKey
  import opened Pivot

  /** One column of the downloaded frame: the (attribute, ticker) header pair. */
  datatype Column = Column(attribute: string, ticker: string)

  /** One row of the wide frame after `reset_index`: the date and one cell per column (None is NaN). */
  datatype WideRow = WideRow(date: Date, cells: seq<Option<real>>)

  datatype WideTable = WideTable(columns: seq<Column>, rows: seq<WideRow>)

  /** One row of the melted frame: `Date`, `Ticker_Attribute`, `value`. */
  datatype MeltedRow = MeltedRow(date: Date, key: string, value: Option<real>)

  /** The split of the melted names did not give exactly the two target columns. */
  datatype NormalizeError = ColumnCountMismatch(width: nat)

  /** A data frame: every row has one cell per column. */
  predicate Rectangular(w: WideTable)
  {
    forall i :: 0 <= i < |w.rows| ==> |w.rows[i].cells| == |w.columns|
  }

  /** No ticker and no attribute holds the separator. */
  predicate NoSeparator(columns: seq<Column>)
  {
    forall j :: 0 <= j < |columns| ==> Sep !in columns[j].ticker && Sep !in columns[j].attribute
  }

  /** The new column names `f"{col[1]}_{col[0]}"` (the leading `Date` column stays as it is). */
  function FlatNames(columns: seq<Column>): (names: seq<string>)
    ensures |names| == |columns|
    ensures forall j :: 0 <= j < |columns| ==> names[j] == Key(columns[j].ticker, columns[j].attribute)
  {
    seq(|columns|, j requires 0 <= j < |columns| => Key(columns[j].ticker, columns[j].attribute))
  }

  /**
   * Flattening loses nothing: when no name part holds the separator, two
   * columns get the same flattened name exactly when they are the same
   * (attribute, ticker) pair.
   */
  lemma FlatNameInjective(columns: seq<Column>, j: nat, k: nat)
    requires NoSeparator(columns) && j < |columns| && k < |columns|
    ensures FlatNames(columns)[j] == FlatNames(columns)[k] <==> columns[j] == columns[k]
  {
    KeyRoundTrip(columns[j].ticker, columns[j].attribute);
    KeyRoundTrip(columns[k].ticker, columns[k].attribute);
  }

  /** Under the same condition, the flattened names are distinct exactly when the header pairs are. */
  lemma FlatNamesUnique(columns: seq<Column>)
    requires NoSeparator(columns)
    ensures UniqueColumns(columns) <==>
      forall j, k :: 0 <= j < k < |columns| ==> FlatNames(columns)[j] != FlatNames(columns)[k]
  {
    forall j, k | 0 <= j < k < |columns|
      ensures FlatNames(columns)[j] == FlatNames(columns)[k] <==> columns[j] == columns[k]
    {
      FlatNameInjective(columns, j, k);
    }
  }

  /** The melted rows of column `j`, one per wide row, in row order. */
  function MeltColumn(key: string, j: nat, rows: seq<WideRow>): (m: seq<MeltedRow>)
    requires forall i :: 0 <= i < |rows| ==> j < |rows[i].cells|
    ensures |m| == |rows|
    ensures forall i :: 0 <= i < |rows| ==> m[i] == MeltedRow(rows[i].date, key, rows[i].cells[j])
  {
    seq(|rows|, i requires 0 <= i < |rows| => MeltedRow(rows[i].date, key, rows[i].cells[j]))
  }

  /** `melt(id_vars=['Date'])`: column after column, each column's rows in row order. */
  function Melt(keys: seq<string>, rows: seq<WideRow>): (m: seq<MeltedRow>)
    requires forall i :: 0 <= i < |rows| ==> |keys| <= |rows[i].cells|
    ensures |m| == |keys| * |rows|
  {
    if keys == [] then []
    else
      var n := |keys| - 1;
      var m := Melt(keys[..n], rows) + MeltColumn(keys[n], n, rows);
      assert |m| == n * |rows| + |rows| == (n + 1) * |rows|;
      m
  }

  /** The melted row for wide row `i` and column `j` sits at `j * |rows| + i` and keeps its value. */
  lemma {:induction false} MeltAt(keys: seq<string>, rows: seq<WideRow>, i: nat, j: nat)
    requires forall r :: 0 <= r < |rows| ==> |keys| <= |rows[r].cells|
    requires i < |rows| && j < |keys|
    ensures j * |rows| + i < |Melt(keys, rows)|
    ensures Melt(keys, rows)[j * |rows| + i] == MeltedRow(rows[i].date, keys[j], rows[i].cells[j])
  {
    var n := |keys| - 1;
    var init := Melt(keys[..n], rows);
    var col := MeltColumn(keys[n], n, rows);
    assert Melt(keys, rows) == init + col;
    if j < n {
      MeltAt(keys[..n], rows, i, j);
    } else {
      assert j * |rows| == |init|;
    }
  }

  /** Every (row, column) pair of the wide table has its melted row. */
  lemma MeltHas(keys: seq<string>, rows: seq<WideRow>, i: nat, j: nat)
    requires forall r :: 0 <= r < |rows| ==> |keys| <= |rows[r].cells|
    requires i < |rows| && j < |keys|
    ensures exists k :: 0 <= k < |Melt(keys, rows)| && Melt(keys, rows)[k] == MeltedRow(rows[i].date, keys[j], rows[i].cells[j])
  {
    MeltAt(keys, rows, i, j);
  }

  /** Every melted row comes from one wide row and one column. */
  lemma {:induction false} MeltFrom(keys: seq<string>, rows: seq<WideRow>, k: nat)
    requires forall r :: 0 <= r < |rows| ==> |keys| <= |rows[r].cells|
    requires k < |Melt(keys, rows)|
    ensures exists i, j :: 0 <= i < |rows| && 0 <= j < |keys| &&
                           Melt(keys, rows)[k] == MeltedRow(rows[i].date, keys[j], rows[i].cells[j])
  {
    var n := |keys| - 1;
    var init := Melt(keys[..n], rows);
    var col := MeltColumn(keys[n], n, rows);
    assert Melt(keys, rows) == init + col;
    if k < |init| {
      MeltFrom(keys[..n], rows, k);
    } else {
      assert Melt(keys, rows)[k] == col[k - |init|];
    }
  }

  /**
   * `str.split('_', expand=True)` makes as many columns as the longest split;
   * this is that number (none at all when there are no melted rows).
   */
  function SplitWidth(melted: seq<MeltedRow>): (w: nat)
    ensures forall k :: 0 <= k < |melted| ==> |Split(melted[k].key, Sep)| <= w
    ensures melted != [] ==> exists k :: 0 <= k < |melted| && |Split(melted[k].key, Sep)| == w
    ensures melted == [] ==> w == 0
  {
    if melted == [] then 0
    else
      var here, rest := |Split(melted[0].key, Sep)|, SplitWidth(melted[1..]);
      assert forall k :: 1 <= k < |melted| ==> melted[k] == melted[1..][k - 1];
      if here >= rest then here else rest
  }

  /**
   * The melted rows with `Ticker_Attribute` replaced by the two split columns.
   * A name without `'_'` (one piece) would get a missing Attribute, and such a
   * group key is dropped by the grouping, so the cell is left out here.
   */
  function Tidy(melted: seq<MeltedRow>): seq<Cell>
  {
    if melted == [] then []
    else
      var parts := Split(melted[0].key, Sep);
      (if |parts| == 2 then [Cell(melted[0].date, parts[0], parts[1], melted[0].value)] else [])
      + Tidy(melted[1..])
  }

  /** When every name splits in two, the tidy cells are the melted rows, one for one. */
  lemma {:induction false} TidyAt(melted: seq<MeltedRow>)
    requires forall k :: 0 <= k < |melted| ==> |Split(melted[k].key, Sep)| == 2
    ensures |Tidy(melted)| == |melted|
    ensures forall k :: 0 <= k < |melted| ==>
      Tidy(melted)[k] == Cell(melted[k].date, Split(melted[k].key, Sep)[0], Split(melted[k].key, Sep)[1], melted[k].value)
  {
    if melted != [] {
      assert forall k :: 1 <= k < |melted| ==> melted[k] == melted[1..][k - 1];
      TidyAt(melted[1..]);
    }
  }

  /** The tidy long cells of a wide table: melted, then split. */
  function LongCells(w: WideTable): seq<Cell>
    requires Rectangular(w)
  {
    Tidy(Melt(FlatNames(w.columns), w.rows))
  }

  /**
   * The whole normalisation of lines 16-22: `ColumnCountMismatch` when the split
   * does not give exactly two columns (pandas then refuses the assignment to
   * `['Ticker', 'Attribute']`), otherwise the pivoted long table.
   */
  function Normalize(w: WideTable): (r: Result<seq<LongRow>, NormalizeError>)
    requires Rectangular(w)
    ensures r.Ok? ==> Sorted(r.value) && NoEmptyRows(r.value)
    ensures r.Err? ==> r.error.width != 2
  {
    var width := Width(w);
    if width != 2 then Err(ColumnCountMismatch(width))
    else
      PivotLookup(LongCells(w));
      Ok(PivotFirst(LongCells(w)))
  }

  /** The number of columns the split of the melted names produces. */
  function Width(w: WideTable): nat
    requires Rectangular(w)
  {
    SplitWidth(Melt(FlatNames(w.columns), w.rows))
  }

  /**
   * Normalisation succeeds exactly when the table has a row and a column and no
   * ticker or attribute holds `'_'`.
   */
  lemma NormalizeOkIff(w: WideTable)
    requires Rectangular(w)
    ensures Normalize(w).Ok? <==> |w.rows| > 0 && |w.columns| > 0 && NoSeparator(w.columns)
  {
    if |w.rows| > 0 && |w.columns| > 0 && NoSeparator(w.columns) {
      NormalizeOkWhen(w);
    }
    if Normalize(w).Ok? {
      NormalizeOkOnly(w);
    }
  }

  lemma NormalizeOkWhen(w: WideTable)
    requires Rectangular(w) && |w.rows| > 0 && |w.columns| > 0 && NoSeparator(w.columns)
    ensures Normalize(w).Ok?
  {
    var melted := Melt(FlatNames(w.columns), w.rows);
    AllKeysSplitInTwo(w);
    MeltHas(FlatNames(w.columns), w.rows, 0, 0);
    var k :| 0 <= k < |melted| && |Split(melted[k].key, Sep)| == SplitWidth(melted);
  }

  lemma NormalizeOkOnly(w: WideTable)
    requires Rectangular(w) && Normalize(w).Ok?
    ensures |w.rows| > 0 && |w.columns| > 0 && NoSeparator(w.columns)
  {
    var names := FlatNames(w.columns);
    var melted := Melt(names, w.rows);
    assert SplitWidth(melted) == 2;
    MeltFrom(names, w.rows, 0);
    forall j | 0 <= j < |w.columns| ensures Sep !in w.columns[j].ticker && Sep !in w.columns[j].attribute {
      MeltHas(names, w.rows, 0, j);
      KeyPieces(w.columns[j].ticker, w.columns[j].attribute);
    }
  }

  /** Under `NoSeparator`, wide row `i` in column `j` is a long cell, split correctly. */
  lemma CellAt(w: WideTable, i: nat, j: nat)
    requires Rectangular(w) && NoSeparator(w.columns)
    requires i < |w.rows| && j < |w.columns|
    ensures exists k :: (0 <= k < |LongCells(w)| &&
                         LongCells(w)[k] == Cell(w.rows[i].date, w.columns[j].ticker, w.columns[j].attribute, w.rows[i].cells[j]))
  {
    var names := FlatNames(w.columns);
    var melted := Melt(names, w.rows);
    AllKeysSplitInTwo(w);
    TidyAt(melted);
    MeltHas(names, w.rows, i, j);
    var k :| 0 <= k < |melted| && melted[k] == MeltedRow(w.rows[i].date, names[j], w.rows[i].cells[j]);
    KeyRoundTrip(w.columns[j].ticker, w.columns[j].attribute);
    assert Split(melted[k].key, Sep) == [w.columns[j].ticker, w.columns[j].attribute];
    assert LongCells(w)[k] == Cell(w.rows[i].date, w.columns[j].ticker, w.columns[j].attribute, w.rows[i].cells[j]);
  }

  /** Under `NoSeparator`, every long cell is some wide row in some column. */
  lemma CellFrom(w: WideTable, k: nat)
    requires Rectangular(w) && NoSeparator(w.columns)
    requires k < |LongCells(w)|
    ensures exists i, j :: 0 <= i < |w.rows| && 0 <= j < |w.columns| &&
                           LongCells(w)[k] == Cell(w.rows[i].date, w.columns[j].ticker, w.columns[j].attribute, w.rows[i].cells[j])
  {
    var names := FlatNames(w.columns);
    var melted := Melt(names, w.rows);
    AllKeysSplitInTwo(w);
    TidyAt(melted);
    MeltFrom(names, w.rows, k);
    var i, j :| 0 <= i < |w.rows| && 0 <= j < |names| && melted[k] == MeltedRow(w.rows[i].date, names[j], w.rows[i].cells[j]);
    KeyRoundTrip(w.columns[j].ticker, w.columns[j].attribute);
  }

  lemma AllKeysSplitInTwo(w: WideTable)
    requires Rectangular(w) && NoSeparator(w.columns)
    ensures forall k :: 0 <= k < |Melt(FlatNames(w.columns), w.rows)| ==>
      |Split(Melt(FlatNames(w.columns), w.rows)[k].key, Sep)| == 2
  {
    var names := FlatNames(w.columns);
    var melted := Melt(names, w.rows);
    forall k | 0 <= k < |melted| ensures |Split(melted[k].key, Sep)| == 2 {
      MeltFrom(names, w.rows, k);
      var i, j :| 0 <= i < |w.rows| && 0 <= j < |names| && melted[k] == MeltedRow(w.rows[i].date, names[j], w.rows[i].cells[j]);
      KeyPieces(w.columns[j].ticker, w.columns[j].attribute);
    }
  }

  /**
   * After a successful normalisation there is a row for (d, t) exactly when some
   * wide row dated `d` has a value in some column of ticker `t`: a ticker that
   * came back empty gets no rows, and no (date, ticker) pair is invented.
   */
  lemma NormalizeRows(w: WideTable, d: Date, t: string)
    requires Rectangular(w) && Normalize(w).Ok?
    ensures HasRow(Normalize(w).value, d, t) <==>
      exists i, j :: 0 <= i < |w.rows| && 0 <= j < |w.columns| &&
                     w.rows[i].date == d && w.columns[j].ticker == t && w.rows[i].cells[j].Some?
  {
    NormalizeOkIff(w);
    var cells := LongCells(w);
    assert Normalize(w).value == PivotFirst(cells);
    PivotRows(cells, d, t);
    if exists k :: 0 <= k < |cells| && cells[k].date == d && cells[k].ticker == t && cells[k].value.Some? {
      var k :| 0 <= k < |cells| && cells[k].date == d && cells[k].ticker == t && cells[k].value.Some?;
      CellFrom(w, k);
    }
    if exists i, j :: 0 <= i < |w.rows| && 0 <= j < |w.columns| &&
                      w.rows[i].date == d && w.columns[j].ticker == t && w.rows[i].cells[j].Some? {
      var i, j :| 0 <= i < |w.rows| && 0 <= j < |w.columns| &&
                  w.rows[i].date == d && w.columns[j].ticker == t && w.rows[i].cells[j].Some?;
      CellAt(w, i, j);
    }
  }

  // ----- The normalisation round trip -----

  predicate UniqueDates(rows: seq<WideRow>)
  {
    forall i, i' :: 0 <= i < i' < |rows| ==> rows[i].date != rows[i'].date
  }

  predicate UniqueColumns(columns: seq<Column>)
  {
    forall j, j' :: 0 <= j < j' < |columns| ==> columns[j] != columns[j']
  }

  /** The index of the first row dated `d`. */
  function RowOf(rows: seq<WideRow>, d: Date): (r: Option<nat>)
    ensures r.Some? ==> r.value < |rows| && rows[r.value].date == d
    ensures r.Some? ==> forall i :: 0 <= i < r.value ==> rows[i].date != d
    ensures r.None? ==> forall i :: 0 <= i < |rows| ==> rows[i].date != d
  {
    if rows == [] then None
    else if rows[0].date == d then Some(0)
    else match RowOf(rows[1..], d)
      case None => assert forall i :: 1 <= i < |rows| ==> rows[i] == rows[1..][i - 1]; None
      case Some(i) => assert forall k :: 1 <= k <= i ==> rows[k] == rows[1..][k - 1]; Some(i + 1)
  }

  /** The index of the first column (a, t). */
  function ColumnOf(columns: seq<Column>, t: string, a: string): (r: Option<nat>)
    ensures r.Some? ==> r.value < |columns| && columns[r.value] == Column(a, t)
    ensures r.Some? ==> forall j :: 0 <= j < r.value ==> columns[j] != Column(a, t)
    ensures r.None? ==> forall j :: 0 <= j < |columns| ==> columns[j] != Column(a, t)
  {
    if columns == [] then None
    else if columns[0] == Column(a, t) then Some(0)
    else match ColumnOf(columns[1..], t, a)
      case None => assert forall j :: 1 <= j < |columns| ==> columns[j] == columns[1..][j - 1]; None
      case Some(j) => assert forall k :: 1 <= k <= j ==> columns[k] == columns[1..][k - 1]; Some(j + 1)
  }

  /** The wide table's cell for date `d` in column (a, t); None when there is no such row or column. */
  function WideValue(w: WideTable, d: Date, t: string, a: string): Option<real>
    requires Rectangular(w)
  {
    match (RowOf(w.rows, d), ColumnOf(w.columns, t, a))
    case (Some(i), Some(j)) => w.rows[i].cells[j]
    case _ => None
  }

  /**
   * The normalisation round trip: for a well-formed download (one row per date,
   * one column per (attribute, ticker), no `'_'` in the names), the long table
   * holds exactly the wide table's values, cell for cell, and nothing else.
   */
  lemma NormalizeRoundTrip(w: WideTable)
    requires Rectangular(w) && |w.rows| > 0 && |w.columns| > 0 && NoSeparator(w.columns)
    requires UniqueDates(w.rows) && UniqueColumns(w.columns)
    ensures Normalize(w).Ok?
    ensures forall d, t, a :: Lookup(Normalize(w).value, d, t, a) == WideValue(w, d, t, a)
  {
    NormalizeOkIff(w);
    var cells := LongCells(w);
    assert Normalize(w).value == PivotFirst(cells);
    PivotLookup(cells);
    forall d, t, a ensures FirstValue(cells, d, t, a) == WideValue(w, d, t, a) {
      RoundTripCell(w, d, t, a);
    }
  }

  lemma RoundTripCell(w: WideTable, d: Date, t: string, a: string)
    requires Rectangular(w) && NoSeparator(w.columns)
    requires UniqueDates(w.rows) && UniqueColumns(w.columns)
    ensures FirstValue(LongCells(w), d, t, a) == WideValue(w, d, t, a)
  {
    var cells := LongCells(w);
    match (RowOf(w.rows, d), ColumnOf(w.columns, t, a))
    case (Some(i), Some(j)) =>
      var v := w.rows[i].cells[j];
      forall k | 0 <= k < |cells| && Matches(cells[k], d, t, a) ensures cells[k].value == v {
        CellFrom(w, k);
        var i', j' :| 0 <= i' < |w.rows| && 0 <= j' < |w.columns| &&
          cells[k] == Cell(w.rows[i'].date, w.columns[j'].ticker, w.columns[j'].attribute, w.rows[i'].cells[j']);
        assert i' == i;
        assert w.columns[j'] == w.columns[j];
        assert j' == j;
      }
      CellAt(w, i, j);
      FirstValueUniform(cells, v, d, t, a);
    case _ =>
      forall k | 0 <= k < |cells| ensures !Matches(cells[k], d, t, a) {
        CellFrom(w, k);
      }
      FirstValueUniform(cells, None, d, t, a);
  }
}
