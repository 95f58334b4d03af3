/**
 * `process_data`: turns the decoded trip report into the cleaned table the dashboard
 * filters, or into one of three error values. The steps follow the source in order:
 * empty-sheet check, column cleaning, required-column check, positional lookup of the
 * unit column, date coercion with row drop, numeric coercion with zero fill, and the
 * derived year-month column.
 */
module Parser {
  import opened Wrappers
  import opened Sheet

  const TRACTOR := "Tractor"
  const DATE_COLUMN := "Fecha"
  const BUSINESS_UNIT_COLUMN := "Unidad de negocios"
  const TRIP_COLUMN := "Viaje"
  const PRICE_COLUMN := "Precio Cliente"
  const DISTANCE_COLUMN := "Distancia total"
  const PERIOD_COLUMN := "Month_Period"
  /** The marker pandas puts into the header of a column whose header cell was blank. */
  const UNNAMED := "Unnamed"

  /** The mandatory business columns, in the order their absence is reported. */
  const REQUIRED: seq<string> :=
    [TRACTOR, DATE_COLUMN, BUSINESS_UNIT_COLUMN, TRIP_COLUMN, PRICE_COLUMN, DISTANCE_COLUMN]

  /**
   * The conversions pandas performs and this model leaves abstract: day-first date parsing
   * of a non-empty, non-date cell (`to_datetime`), numeric parsing of a non-empty,
   * non-number cell (`to_numeric`), and the year-month text of a day (`to_period("M")`).
   */
  datatype Coercions = Coercions(
    parseDate: Cell -> Option<int>,
    parseNumber: Cell -> Option<real>,
    yearMonth: int -> string)

  /** The result of `process_data`; every failure is a value. */
  datatype Outcome =
    | EmptyFile
    | MissingColumns(names: seq<string>)
    | Critical
    | Processed(table: Table, unitColumn: string)

  // ---------------------------------------------------------------------------
  // Cell coercions

  /** `pd.to_datetime(..., errors='coerce')` on one cell: a missing cell stays missing, a date stays itself. */
  function ToDate(c: Cell, cv: Coercions): (r: Option<int>)
    ensures c.Empty? ==> r.None?
    ensures c.Date? ==> r == Some(c.day)
  {
    match c
    case Empty => None
    case Date(d) => Some(d)
    case _ => cv.parseDate(c)
  }

  /** The coerced date as a cell: NaT is the missing cell. */
  function DateCell(d: Option<int>): (r: Cell)
    ensures r.Empty? <==> d.None?
    ensures d.Some? ==> r == Date(d.value)
  {
    match d
    case Some(day) => Date(day)
    case None => Empty
  }

  /** `pd.to_numeric(..., errors='coerce').fillna(0)` on one cell. */
  function NumberOrZero(c: Cell, cv: Coercions): (r: real)
    ensures c.Num? ==> r == c.v
    ensures c.Empty? ==> r == 0.0
    ensures !c.Num? && !c.Empty? ==> r == cv.parseNumber(c).GetOr(0.0)
  {
    match c
    case Empty => 0.0
    case Num(v) => v
    case _ => cv.parseNumber(c).GetOr(0.0)
  }

  // ---------------------------------------------------------------------------
  // Column cleaning (line 51)

  /** Some row has a value in column `j`. */
  predicate HasValue(rows: seq<Row>, j: nat)
  {
    exists i :: 0 <= i < |rows| && CellAt(rows[i], j) != Empty
  }

  /** Column `j` survives cleaning: its header is not an "Unnamed" placeholder and it is not entirely empty. */
  predicate Keeps(raw: Table, j: nat)
  {
    j < |raw.headers| && !ContainsText(raw.headers[j], UNNAMED) && HasValue(raw.rows, j)
  }

  /** The positions below `n` of the columns that survive, left to right. */
  function KeptAmong(raw: Table, n: nat): (r: seq<nat>)
    requires n <= |raw.headers|
    ensures forall k :: 0 <= k < |r| ==> r[k] < n
    ensures forall a, b :: 0 <= a < b < |r| ==> r[a] < r[b]
    ensures forall j: nat :: j in r <==> j < n && Keeps(raw, j)
  {
    if n == 0 then []
    else KeptAmong(raw, n - 1) + (if Keeps(raw, n - 1) then [n - 1] else [])
  }

  /** The report without placeholder and entirely empty columns (line 51). */
  function CleanColumns(raw: Table): (r: Table)
    ensures Rectangular(r) && |r.rows| == |raw.rows|
    ensures var kept := KeptAmong(raw, |raw.headers|);
            |r.headers| == |kept| && forall k :: 0 <= k < |kept| ==> r.headers[k] == raw.headers[kept[k]]
  {
    Select(raw, KeptAmong(raw, |raw.headers|))
  }

  /** Line 51: no cleaned header contains "Unnamed", and every cleaned column has a value. */
  lemma CleanHeadersKept(raw: Table, k: nat)
    requires k < |CleanColumns(raw).headers|
    ensures !ContainsText(CleanColumns(raw).headers[k], UNNAMED) && HasValue(CleanColumns(raw).rows, k)
  {
    var kept := KeptAmong(raw, |raw.headers|);
    var r := CleanColumns(raw);
    assert kept[k] in kept;
    var i :| 0 <= i < |raw.rows| && CellAt(raw.rows[i], kept[k]) != Empty;
    assert r.rows[i] in r.rows;
    assert CellAt(r.rows[i], k) == CellAt(raw.rows[i], kept[k]);
  }

  /** Line 51: every cell of the cleaned table is the cell of the same row under a raw column of the same header. */
  lemma CleanCells(raw: Table, i: nat, k: nat)
    requires i < |CleanColumns(raw).rows| && k < |CleanColumns(raw).headers|
    ensures exists j :: 0 <= j < |raw.headers| && raw.headers[j] == CleanColumns(raw).headers[k] &&
                        CellAt(CleanColumns(raw).rows[i], k) == CellAt(raw.rows[i], j)
  {
    var kept := KeptAmong(raw, |raw.headers|);
    var r := CleanColumns(raw);
    assert r.rows[i] in r.rows;
    assert CellAt(r.rows[i], k) == CellAt(raw.rows[i], kept[k]);
  }

  /** A header survives cleaning exactly when some column carrying it is kept. */
  lemma CleanHeaders(raw: Table, name: string)
    ensures name in CleanColumns(raw).headers <==>
            exists j :: 0 <= j < |raw.headers| && raw.headers[j] == name && Keeps(raw, j)
  {
    var kept := KeptAmong(raw, |raw.headers|);
    var clean := CleanColumns(raw);
    if name in clean.headers {
      var k :| 0 <= k < |clean.headers| && clean.headers[k] == name;
      assert kept[k] in kept;
      assert raw.headers[kept[k]] == name && Keeps(raw, kept[k]);
    }
    if j :| 0 <= j < |raw.headers| && raw.headers[j] == name && Keeps(raw, j) {
      assert j in kept;
      var k :| 0 <= k < |kept| && kept[k] == j;
      assert clean.headers[k] == name;
    }
  }

  /** A column whose cells are all missing does not survive cleaning, whatever its header. */
  lemma EmptyColumnDropped(raw: Table, j: nat)
    requires j < |raw.headers|
    requires forall i :: 0 <= i < |raw.rows| ==> CellAt(raw.rows[i], j) == Empty
    ensures j !in KeptAmong(raw, |raw.headers|)
  {
  }

  // ---------------------------------------------------------------------------
  // Required columns (lines 54-57)

  /** The names of `required` absent from `headers`, in the order of `required`. */
  function MissingFrom(required: seq<string>, headers: seq<string>): (r: seq<string>)
    ensures forall n :: n in r <==> n in required && n !in headers
    ensures r == [] <==> forall n :: n in required ==> n in headers
    ensures IsSubsequence(r, required)
  {
    if |required| == 0 then []
    else
      var rest := MissingFrom(required[1..], headers);
      if required[0] in headers then rest else [required[0]] + rest
  }

  // ---------------------------------------------------------------------------
  // Unit column (lines 60-62)

  /** The column right of the first "Tractor"; none when "Tractor" is absent or is the last column. */
  function UnitColumnIndex(headers: seq<string>): (r: Option<nat>)
    ensures r.Some? <==> |headers| > 0 && TRACTOR in headers[..|headers| - 1]
    ensures r.Some? ==> 0 < r.value < |headers| && headers[r.value - 1] == TRACTOR &&
                        TRACTOR !in headers[..r.value - 1]
  {
    match IndexOf(headers, TRACTOR)
    case None => None
    case Some(t) =>
      if t + 1 < |headers| then
        assert headers[..|headers| - 1][t] == TRACTOR;
        Some(t + 1)
      else
        assert headers[..|headers| - 1] == headers[..t];
        None
  }

  // ---------------------------------------------------------------------------
  // Coercion stages (lines 65-71)

  /** Rows whose column `j` is missing are dropped; the others are kept in order (`dropna(subset=...)`). */
  function DropMissing(rows: seq<Row>, j: nat): (r: seq<Row>)
    ensures |r| <= |rows|
    ensures forall row :: row in r <==> row in rows && CellAt(row, j) != Empty
    ensures forall row :: multiset(r)[row] == if CellAt(row, j) != Empty then multiset(rows)[row] else 0
    ensures IsSubsequence(r, rows)
  {
    if |rows| == 0 then []
    else
      assert rows == [rows[0]] + rows[1..];
      var rest := DropMissing(rows[1..], j);
      if CellAt(rows[0], j) != Empty then
        assert ([rows[0]] + rest)[1..] == rest;
        [rows[0]] + rest
      else rest
  }

  /** Line 65: the date column is replaced by its coerced value, NaT where it does not parse. */
  function ParseDateColumn(t: Table, cv: Coercions): (r: Table)
    requires Rectangular(t) && DATE_COLUMN in t.headers
    ensures Rectangular(r) && r.headers == t.headers && |r.rows| == |t.rows|
    ensures forall i :: 0 <= i < |t.rows| ==>
              var j := IndexOf(t.headers, DATE_COLUMN).value;
              CellAt(r.rows[i], j) == DateCell(ToDate(CellAt(t.rows[i], j), cv))
    ensures forall i, k :: 0 <= i < |t.rows| && 0 <= k < |t.headers| && t.headers[k] != DATE_COLUMN ==>
              CellAt(r.rows[i], k) == CellAt(t.rows[i], k)
  {
    var j := IndexOf(t.headers, DATE_COLUMN).value;
    SetColumn(t, DATE_COLUMN,
      seq(|t.rows|, i requires 0 <= i < |t.rows| => DateCell(ToDate(CellAt(t.rows[i], j), cv))))
  }

  /** Line 66: rows without a date are dropped; the survivors are the rows of `t` with a date, each as often as in `t`. */
  function DropUndated(t: Table): (r: Table)
    requires Rectangular(t) && DATE_COLUMN in t.headers
    requires forall row :: row in t.rows ==> var c := CellAt(row, IndexOf(t.headers, DATE_COLUMN).value); c.Date? || c.Empty?
    ensures Rectangular(r) && r.headers == t.headers && |r.rows| <= |t.rows|
    ensures DatedColumn(r.rows, IndexOf(t.headers, DATE_COLUMN).value)
    ensures forall row :: multiset(r.rows)[row] ==
              if CellAt(row, IndexOf(t.headers, DATE_COLUMN).value).Date? then multiset(t.rows)[row] else 0
    ensures IsSubsequence(r.rows, t.rows)
  {
    var j := IndexOf(t.headers, DATE_COLUMN).value;
    var kept := DropMissing(t.rows, j);
    assert forall row :: CellAt(row, j).Date? ==> CellAt(row, j) != Empty;
    forall row ensures multiset(kept)[row] == if CellAt(row, j).Date? then multiset(t.rows)[row] else 0 {
      if CellAt(row, j) != Empty && !CellAt(row, j).Date? {
        assert row !in t.rows;
      }
    }
    Table(t.headers, kept)
  }

  /** Lines 67-68: column `name` becomes numeric; parsable values are kept, the rest become 0. No row is dropped. */
  function FillNumber(t: Table, name: string, cv: Coercions): (r: Table)
    requires Rectangular(t) && name in t.headers
    ensures Rectangular(r) && r.headers == t.headers && |r.rows| == |t.rows|
    ensures forall i :: 0 <= i < |t.rows| ==>
              var j := IndexOf(t.headers, name).value;
              CellAt(r.rows[i], j) == Num(NumberOrZero(CellAt(t.rows[i], j), cv))
    ensures forall i, k :: 0 <= i < |t.rows| && 0 <= k < |t.headers| && t.headers[k] != name ==>
              CellAt(r.rows[i], k) == CellAt(t.rows[i], k)
  {
    var j := IndexOf(t.headers, name).value;
    SetColumn(t, name, seq(|t.rows|, i requires 0 <= i < |t.rows| => Num(NumberOrZero(CellAt(t.rows[i], j), cv))))
  }

  /** Line 71: the year-month of each row's date, written to "Month_Period" (appended, or overwritten if present). */
  function AddPeriod(t: Table, cv: Coercions): (r: Table)
    requires Rectangular(t) && DATE_COLUMN in t.headers && DatedColumn(t.rows, IndexOf(t.headers, DATE_COLUMN).value)
    ensures Rectangular(r) && |r.rows| == |t.rows| && PERIOD_COLUMN in r.headers
    ensures r.headers == if PERIOD_COLUMN in t.headers then t.headers else t.headers + [PERIOD_COLUMN]
    ensures forall i :: 0 <= i < |t.rows| ==>
              CellAt(r.rows[i], IndexOf(r.headers, PERIOD_COLUMN).value) ==
              Text(cv.yearMonth(CellAt(t.rows[i], IndexOf(t.headers, DATE_COLUMN).value).day))
    ensures forall i, k :: 0 <= i < |t.rows| && 0 <= k < |t.headers| && t.headers[k] != PERIOD_COLUMN ==>
              CellAt(r.rows[i], k) == CellAt(t.rows[i], k)
  {
    SetColumn(t, PERIOD_COLUMN, Periods(t.rows, IndexOf(t.headers, DATE_COLUMN).value, cv))
  }

  /** The year-month of the date in column `j` of each row. */
  function Periods(rows: seq<Row>, j: nat, cv: Coercions): (r: seq<Cell>)
    requires forall row :: row in rows ==> CellAt(row, j).Date?
    ensures |r| == |rows| && forall i :: 0 <= i < |rows| ==> r[i] == Text(cv.yearMonth(CellAt(rows[i], j).day))
  {
    seq(|rows|, i requires 0 <= i < |rows| => assert rows[i] in rows; Text(cv.yearMonth(CellAt(rows[i], j).day)))
  }

  /** Lines 65-68 in order, on a cleaned table that has every required column. */
  function Measure(clean: Table, cv: Coercions): (r: Table)
    requires Rectangular(clean) && HasRequired(clean.headers)
    ensures Rectangular(r) && r.headers == clean.headers && |r.rows| <= |clean.rows|
  {
    var dated := DropUndated(ParseDateColumn(clean, cv));
    var priced := FillNumber(dated, PRICE_COLUMN, cv);
    FillNumber(priced, DISTANCE_COLUMN, cv)
  }

  /** Lines 65-71 in order. */
  function Coerce(clean: Table, cv: Coercions): Table
    requires Rectangular(clean) && HasRequired(clean.headers)
  {
    MeasureShape(clean, cv);
    AddPeriod(Measure(clean, cv), cv)
  }

  // ---------------------------------------------------------------------------
  // process_data (lines 39-75)

  /** The report has no data: pandas' `DataFrame.empty` holds when there are no rows or no columns. */
  predicate IsEmptySheet(raw: Table)
  {
    |raw.headers| == 0 || |raw.rows| == 0
  }

  function Process(raw: Table, cv: Coercions): (r: Outcome)
    ensures r.EmptyFile? <==> IsEmptySheet(raw)
  {
    if IsEmptySheet(raw) then EmptyFile
    else
      var clean := CleanColumns(raw);
      var missing := MissingFrom(REQUIRED, clean.headers);
      if missing != [] then MissingColumns(missing)
      else
        match UnitColumnIndex(clean.headers)
        case None => Critical
        case Some(u) => Processed(Coerce(clean, cv), clean.headers[u])
  }

  /** Lines 54-57: the report is rejected for missing columns exactly when a required name is absent after cleaning, and the error lists exactly those names, in the order of the required list. */
  lemma MissingReported(raw: Table, cv: Coercions)
    ensures Process(raw, cv).MissingColumns? <==>
              !IsEmptySheet(raw) && exists n :: n in REQUIRED && n !in CleanColumns(raw).headers
    ensures Process(raw, cv).MissingColumns? ==>
              var names := Process(raw, cv).names;
              (forall n :: n in names <==> n in REQUIRED && n !in CleanColumns(raw).headers) &&
              IsSubsequence(names, REQUIRED)
  {
    if !IsEmptySheet(raw) {
      var missing := MissingFrom(REQUIRED, CleanColumns(raw).headers);
      if n :| n in REQUIRED && n !in CleanColumns(raw).headers {
        assert n in missing;
        assert Process(raw, cv) == MissingColumns(missing);
      }
    }
  }

  /** Lines 51-57: a required column present in the report but with every cell empty is reported as missing. */
  lemma EmptyRequiredReported(raw: Table, cv: Coercions, name: string)
    requires !IsEmptySheet(raw) && name in REQUIRED
    requires forall j :: 0 <= j < |raw.headers| && raw.headers[j] == name ==>
               forall i :: 0 <= i < |raw.rows| ==> CellAt(raw.rows[i], j) == Empty
    ensures Process(raw, cv).MissingColumns? && name in Process(raw, cv).names
  {
    CleanHeaders(raw, name);
    MissingReported(raw, cv);
  }

  /**
   * Lines 60-62 and 74-75: once every required column is present, the run fails as critical
   * exactly when "Tractor" occurs only as the last cleaned column (the positional lookup
   * raises and the handler catches it); otherwise the unit column is the one right of the
   * first "Tractor".
   */
  lemma UnitColumnLookup(raw: Table, cv: Coercions)
    requires !IsEmptySheet(raw)
    requires forall n :: n in REQUIRED ==> n in CleanColumns(raw).headers
    ensures var hs := CleanColumns(raw).headers;
            Process(raw, cv).Critical? <==> !(|hs| > 0 && TRACTOR in hs[..|hs| - 1])
    ensures var hs := CleanColumns(raw).headers;
            Process(raw, cv).Processed? ==>
              TRACTOR in hs && IndexOf(hs, TRACTOR).value + 1 < |hs| &&
              Process(raw, cv).unitColumn == hs[IndexOf(hs, TRACTOR).value + 1]
  {
    var hs := CleanColumns(raw).headers;
    assert MissingFrom(REQUIRED, hs) == [];
    ProcessValidated(raw, cv);
    UnitColumnIsFirstTractor(hs);
    if UnitColumnIndex(hs).Some? {
      var u := UnitColumnIndex(hs).value;
      assert Process(raw, cv).Processed? && Process(raw, cv).unitColumn == hs[u];
      assert IndexOf(hs, TRACTOR).value + 1 == u;
    }
  }

  /** Once the required columns are all present, the outcome is decided by the unit-column lookup alone. */
  lemma ProcessValidated(raw: Table, cv: Coercions)
    requires !IsEmptySheet(raw) && MissingFrom(REQUIRED, CleanColumns(raw).headers) == []
    ensures var hs := CleanColumns(raw).headers;
            && (UnitColumnIndex(hs).None? ==> Process(raw, cv) == Critical)
            && (UnitColumnIndex(hs).Some? ==>
                  Process(raw, cv).Processed? && Process(raw, cv).unitColumn == hs[UnitColumnIndex(hs).value])
  {
  }

  /** The unit column's position is one past the first "Tractor". */
  lemma UnitColumnIsFirstTractor(hs: seq<string>)
    ensures UnitColumnIndex(hs).Some? ==> IndexOf(hs, TRACTOR) == Some(UnitColumnIndex(hs).value - 1)
  {
  }

  /** Column `name` of `t` (requires it to be present). */
  function Col(t: Table, name: string): nat
    requires name in t.headers
  {
    IndexOf(t.headers, name).value
  }

  predicate ColumnIsNum(t: Table, k: nat)
  {
    forall row :: row in t.rows ==> CellAt(row, k).Num?
  }

  /** Column `pk` holds the year-month text of the date in column `dk`, row by row. */
  predicate PeriodsMatch(t: Table, dk: nat, pk: nat, cv: Coercions)
    requires DatedColumn(t.rows, dk)
  {
    forall row :: row in t.rows ==> CellAt(row, pk) == Text(cv.yearMonth(CellAt(row, dk).day))
  }

  predicate HasRequired(hs: seq<string>)
  {
    forall n :: n in REQUIRED ==> n in hs
  }

  /**
   * What a processed table looks like: every required column and "Month_Period" are present;
   * every row holds a parsed date, the year-month of that date, and numbers for price and distance.
   */
  predicate Cleaned(t: Table, cv: Coercions)
  {
    && Rectangular(t)
    && HasRequired(t.headers)
    && PERIOD_COLUMN in t.headers
    && DATE_COLUMN in t.headers && PRICE_COLUMN in t.headers && DISTANCE_COLUMN in t.headers
    && DatedColumn(t.rows, Col(t, DATE_COLUMN))
    && PeriodsMatch(t, Col(t, DATE_COLUMN), Col(t, PERIOD_COLUMN), cv)
    && ColumnIsNum(t, Col(t, PRICE_COLUMN))
    && ColumnIsNum(t, Col(t, DISTANCE_COLUMN))
  }

  /** Filling one column with numbers makes it numeric and keeps the kind of every other column. */
  lemma FillNumberKinds(t: Table, name: string, cv: Coercions, k: nat)
    requires Rectangular(t) && name in t.headers
    requires k < |t.headers| && t.headers[k] != name
    ensures ColumnIsNum(FillNumber(t, name, cv), Col(t, name))
    ensures DatedColumn(t.rows, k) ==> DatedColumn(FillNumber(t, name, cv).rows, k)
    ensures ColumnIsNum(t, k) ==> ColumnIsNum(FillNumber(t, name, cv), k)
  {
    var r := FillNumber(t, name, cv);
    forall row | row in r.rows
      ensures CellAt(row, Col(t, name)).Num?
      ensures DatedColumn(t.rows, k) ==> CellAt(row, k).Date?
      ensures ColumnIsNum(t, k) ==> CellAt(row, k).Num?
    {
      var i :| 0 <= i < |r.rows| && r.rows[i] == row;
      assert t.rows[i] in t.rows;
    }
  }

  /** Writing the period column keeps the kind of every other column and matches each row's date. */
  lemma AddPeriodKinds(t: Table, cv: Coercions, k: nat)
    requires Rectangular(t) && DATE_COLUMN in t.headers && DatedColumn(t.rows, Col(t, DATE_COLUMN))
    requires k < |t.headers| && t.headers[k] != PERIOD_COLUMN
    ensures var r := AddPeriod(t, cv);
            DATE_COLUMN in r.headers && Col(r, DATE_COLUMN) == Col(t, DATE_COLUMN) &&
            DatedColumn(r.rows, Col(t, DATE_COLUMN)) &&
            PeriodsMatch(r, Col(t, DATE_COLUMN), Col(r, PERIOD_COLUMN), cv)
    ensures ColumnIsNum(t, k) ==> ColumnIsNum(AddPeriod(t, cv), k)
  {
    var r := AddPeriod(t, cv);
    var fi := Col(t, DATE_COLUMN);
    if PERIOD_COLUMN !in t.headers {
      IndexOfAppend(t.headers, PERIOD_COLUMN, DATE_COLUMN);
    }
    assert t.headers[fi] == DATE_COLUMN;
    forall row | row in r.rows
      ensures CellAt(row, fi).Date?
      ensures CellAt(row, Col(r, PERIOD_COLUMN)) == Text(cv.yearMonth(CellAt(row, fi).day))
      ensures ColumnIsNum(t, k) ==> CellAt(row, k).Num?
    {
      var i :| 0 <= i < |r.rows| && r.rows[i] == row;
      assert t.rows[i] in t.rows;
    }
  }

  /** Lines 65-68: after the coercions the date column holds dates and price and distance hold numbers. */
  lemma MeasureShape(clean: Table, cv: Coercions)
    requires Rectangular(clean) && HasRequired(clean.headers)
    ensures DATE_COLUMN in clean.headers && PRICE_COLUMN in clean.headers && DISTANCE_COLUMN in clean.headers
    ensures var r := Measure(clean, cv);
            && DatedColumn(r.rows, Col(clean, DATE_COLUMN))
            && ColumnIsNum(r, Col(clean, PRICE_COLUMN))
            && ColumnIsNum(r, Col(clean, DISTANCE_COLUMN))
  {
    assert DATE_COLUMN in REQUIRED && PRICE_COLUMN in REQUIRED && DISTANCE_COLUMN in REQUIRED;
    var dated := DropUndated(ParseDateColumn(clean, cv));
    var priced := FillNumber(dated, PRICE_COLUMN, cv);
    var fi, pri := Col(clean, DATE_COLUMN), Col(clean, PRICE_COLUMN);
    FillNumberKinds(dated, PRICE_COLUMN, cv, fi);
    FillNumberKinds(priced, DISTANCE_COLUMN, cv, fi);
    FillNumberKinds(priced, DISTANCE_COLUMN, cv, pri);
  }

  /** Lines 65-71: the coercion stages produce a cleaned table and never add rows. */
  lemma CoerceShape(clean: Table, cv: Coercions)
    requires Rectangular(clean) && HasRequired(clean.headers)
    ensures Cleaned(Coerce(clean, cv), cv)
    ensures |Coerce(clean, cv).rows| <= |clean.rows|
    ensures forall n :: n in clean.headers ==> n in Coerce(clean, cv).headers
  {
    MeasureShape(clean, cv);
    var hs := clean.headers;
    var measured := Measure(clean, cv);
    var t := AddPeriod(measured, cv);
    var pri, di := Col(clean, PRICE_COLUMN), Col(clean, DISTANCE_COLUMN);
    AddPeriodKinds(measured, cv, pri);
    AddPeriodKinds(measured, cv, di);
    if PERIOD_COLUMN !in hs {
      IndexOfAppend(hs, PERIOD_COLUMN, PRICE_COLUMN);
      IndexOfAppend(hs, PERIOD_COLUMN, DISTANCE_COLUMN);
    }
    assert HasRequired(t.headers);
  }

  /** Lines 65-73: a successful run returns a cleaned table, with no more rows than the report, and the unit column among its headers. */
  lemma ProcessedShape(raw: Table, cv: Coercions)
    requires Process(raw, cv).Processed?
    ensures Cleaned(Process(raw, cv).table, cv)
    ensures |Process(raw, cv).table.rows| <= |raw.rows|
    ensures Process(raw, cv).unitColumn in Process(raw, cv).table.headers
  {
    var clean := CleanColumns(raw);
    assert MissingFrom(REQUIRED, clean.headers) == [];
    var u := UnitColumnIndex(clean.headers).value;
    assert Process(raw, cv) == Processed(Coerce(clean, cv), clean.headers[u]);
    CoerceShape(clean, cv);
  }

  /** The number of rows whose column `j` parses as a date. */
  function DatedCount(rows: seq<Row>, j: nat, cv: Coercions): (n: nat)
    ensures n <= |rows|
  {
    if |rows| == 0 then 0
    else (if ToDate(CellAt(rows[0], j), cv).Some? then 1 else 0) + DatedCount(rows[1..], j, cv)
  }

  lemma {:induction false} DropCount(stamped: seq<Row>, rows: seq<Row>, j: nat, cv: Coercions)
    requires |stamped| == |rows|
    requires forall i :: 0 <= i < |rows| ==>
               (CellAt(stamped[i], j) != Empty <==> ToDate(CellAt(rows[i], j), cv).Some?)
    ensures |DropMissing(stamped, j)| == DatedCount(rows, j, cv)
  {
    if |rows| > 0 {
      assert forall i :: 0 <= i < |rows| - 1 ==> stamped[1..][i] == stamped[i + 1] && rows[1..][i] == rows[i + 1];
      DropCount(stamped[1..], rows[1..], j, cv);
    }
  }

  /** Lines 65-71: the coercions keep exactly the rows whose date parses. */
  lemma CoerceCount(clean: Table, cv: Coercions)
    requires Rectangular(clean) && HasRequired(clean.headers)
    ensures DATE_COLUMN in clean.headers
    ensures |Coerce(clean, cv).rows| == DatedCount(clean.rows, Col(clean, DATE_COLUMN), cv)
  {
    assert DATE_COLUMN in REQUIRED;
    var parsed := ParseDateColumn(clean, cv);
    DropCount(parsed.rows, clean.rows, Col(clean, DATE_COLUMN), cv);
  }

  /** Lines 65-68: exactly the cleaned rows whose date parses survive; price and distance never drop a row. */
  lemma SurvivorCount(raw: Table, cv: Coercions)
    requires Process(raw, cv).Processed?
    ensures var clean := CleanColumns(raw);
            DATE_COLUMN in clean.headers &&
            |Process(raw, cv).table.rows| == DatedCount(clean.rows, Col(clean, DATE_COLUMN), cv)
  {
    var clean := CleanColumns(raw);
    assert MissingFrom(REQUIRED, clean.headers) == [];
    assert DATE_COLUMN in REQUIRED;
    var u := UnitColumnIndex(clean.headers).value;
    assert Process(raw, cv) == Processed(Coerce(clean, cv), clean.headers[u]);
    CoerceCount(clean, cv);
  }

  lemma {:induction false} NoDateCounted(rows: seq<Row>, j: nat, cv: Coercions)
    requires forall i :: 0 <= i < |rows| ==> ToDate(CellAt(rows[i], j), cv).None?
    ensures DatedCount(rows, j, cv) == 0
  {
    if |rows| > 0 {
      assert forall i :: 0 <= i < |rows| - 1 ==> rows[1..][i] == rows[i + 1];
      NoDateCounted(rows[1..], j, cv);
    }
  }

  lemma NoDateInColumn(raw: Table, k: nat, cv: Coercions)
    requires k < |CleanColumns(raw).headers| && CleanColumns(raw).headers[k] == DATE_COLUMN
    requires forall i, j :: 0 <= i < |raw.rows| && 0 <= j < |raw.headers| && raw.headers[j] == DATE_COLUMN ==>
               ToDate(CellAt(raw.rows[i], j), cv).None?
    ensures forall i :: 0 <= i < |CleanColumns(raw).rows| ==> ToDate(CellAt(CleanColumns(raw).rows[i], k), cv).None?
  {
    var kept := KeptAmong(raw, |raw.headers|);
    var clean := Select(raw, kept);
    assert raw.headers[kept[k]] == DATE_COLUMN;
    forall i | 0 <= i < |clean.rows|
      ensures ToDate(CellAt(clean.rows[i], k), cv).None?
    {
      assert CellAt(clean.rows[i], k) == CellAt(raw.rows[i], kept[k]);
    }
  }

  /** When no cell under a "Fecha" header parses as a date, the processed table has no rows. */
  lemma NoParsableDates(raw: Table, cv: Coercions)
    requires Process(raw, cv).Processed?
    requires forall i, j :: 0 <= i < |raw.rows| && 0 <= j < |raw.headers| && raw.headers[j] == DATE_COLUMN ==>
               ToDate(CellAt(raw.rows[i], j), cv).None?
    ensures Process(raw, cv).table.rows == []
  {
    var clean := CleanColumns(raw);
    SurvivorCount(raw, cv);
    var fi := Col(clean, DATE_COLUMN);
    NoDateInColumn(raw, fi, cv);
    NoDateCounted(clean.rows, fi, cv);
  }

  /** The missing list of headers that lack only "Distancia total" names exactly that column. */
  lemma OnlyDistanceMissingFrom(hs: seq<string>)
    requires forall n :: n in REQUIRED && n != DISTANCE_COLUMN ==> n in hs
    requires DISTANCE_COLUMN !in hs
    ensures MissingFrom(REQUIRED, hs) == [DISTANCE_COLUMN]
  {
    assert TRACTOR in hs && DATE_COLUMN in hs && BUSINESS_UNIT_COLUMN in hs && TRIP_COLUMN in hs && PRICE_COLUMN in hs by {
      assert TRACTOR in REQUIRED && DATE_COLUMN in REQUIRED && BUSINESS_UNIT_COLUMN in REQUIRED;
      assert TRIP_COLUMN in REQUIRED && PRICE_COLUMN in REQUIRED;
    }
    assert MissingFrom(REQUIRED[5..], hs) == [DISTANCE_COLUMN];
    assert MissingFrom(REQUIRED[4..], hs) == [DISTANCE_COLUMN];
    assert MissingFrom(REQUIRED[3..], hs) == [DISTANCE_COLUMN];
    assert MissingFrom(REQUIRED[2..], hs) == [DISTANCE_COLUMN];
    assert MissingFrom(REQUIRED[1..], hs) == [DISTANCE_COLUMN];
  }

  /** A report whose only absent required column is "Distancia total" is rejected naming exactly that column. */
  lemma OnlyDistanceMissing(raw: Table, cv: Coercions)
    requires !IsEmptySheet(raw)
    requires forall n :: n in REQUIRED && n != DISTANCE_COLUMN ==> n in CleanColumns(raw).headers
    requires DISTANCE_COLUMN !in CleanColumns(raw).headers
    ensures Process(raw, cv) == MissingColumns([DISTANCE_COLUMN])
  {
    OnlyDistanceMissingFrom(CleanColumns(raw).headers);
  }
}
