/**
 * The scope filter and per-unit aggregation: keep the rows of one business unit and one
 * month, group them by the unit column, and summarise each unit's trips, revenue, distance
 * and last trip date, with its inactivity measured against the latest date in the scope.
 */
module Aggregator {
  import opened Wrappers
  import opened Sheet
  import Parser

  /** Positions of the columns the aggregation reads. */
  datatype Layout = Layout(unit: nat, businessUnit: nat, trip: nat, revenue: nat, distance: nat, date: nat, period: nat)

  /** The layout of a table whose unit column is `unitColumn`; none when a column is absent. */
  function LayoutOf(hs: seq<string>, unitColumn: string): (r: Option<Layout>)
    ensures r.Some? <==>
              unitColumn in hs && Parser.BUSINESS_UNIT_COLUMN in hs && Parser.TRIP_COLUMN in hs &&
              Parser.PRICE_COLUMN in hs && Parser.DISTANCE_COLUMN in hs && Parser.DATE_COLUMN in hs &&
              Parser.PERIOD_COLUMN in hs
    ensures r.Some? ==>
              var l := r.value;
              l.unit < |hs| && hs[l.unit] == unitColumn &&
              l.businessUnit < |hs| && hs[l.businessUnit] == Parser.BUSINESS_UNIT_COLUMN &&
              l.trip < |hs| && hs[l.trip] == Parser.TRIP_COLUMN &&
              l.revenue < |hs| && hs[l.revenue] == Parser.PRICE_COLUMN &&
              l.distance < |hs| && hs[l.distance] == Parser.DISTANCE_COLUMN &&
              l.date < |hs| && hs[l.date] == Parser.DATE_COLUMN &&
              l.period < |hs| && hs[l.period] == Parser.PERIOD_COLUMN
  {
    if unitColumn in hs && Parser.BUSINESS_UNIT_COLUMN in hs && Parser.TRIP_COLUMN in hs &&
       Parser.PRICE_COLUMN in hs && Parser.DISTANCE_COLUMN in hs && Parser.DATE_COLUMN in hs &&
       Parser.PERIOD_COLUMN in hs
    then
      Some(Layout(IndexOf(hs, unitColumn).value, IndexOf(hs, Parser.BUSINESS_UNIT_COLUMN).value,
                  IndexOf(hs, Parser.TRIP_COLUMN).value, IndexOf(hs, Parser.PRICE_COLUMN).value,
                  IndexOf(hs, Parser.DISTANCE_COLUMN).value, IndexOf(hs, Parser.DATE_COLUMN).value,
                  IndexOf(hs, Parser.PERIOD_COLUMN).value))
    else None
  }

  function UnitOf(row: Row, l: Layout): Cell
  {
    CellAt(row, l.unit)
  }

  function DayOf(row: Row, l: Layout): int
    requires CellAt(row, l.date).Date?
  {
    CellAt(row, l.date).day
  }

  /**
   * The number in a cell; anything else adds nothing. For a missing cell this is pandas' `sum`
   * skipping NaN. For text or a date cell pandas would concatenate or raise instead, but the
   * summed price and distance columns hold only numbers after lines 67-68.
   */
  function NumOf(c: Cell): real
  {
    if c.Num? then c.v else 0.0
  }

  // ---------------------------------------------------------------------------
  // Scope filter (line 95)

  /**
   * The row is of business unit `businessUnit` and month `month`. A missing selection
   * matches nothing, since NaN is never equal to anything.
   */
  predicate InScope(row: Row, l: Layout, businessUnit: Cell, month: string): (b: bool)
    ensures businessUnit == Empty ==> !b
    ensures CellAt(row, l.businessUnit) == Empty ==> !b
    ensures CellAt(row, l.period) == Empty ==> !b
  {
    businessUnit != Empty && CellAt(row, l.businessUnit) == businessUnit && CellAt(row, l.period) == Text(month)
  }

  /** Line 95: the rows of the selected business unit and month, each as often as in `rows`, in order. */
  function Scope(rows: seq<Row>, l: Layout, businessUnit: Cell, month: string): (r: seq<Row>)
    ensures |r| <= |rows|
    ensures forall row :: row in r <==> row in rows && InScope(row, l, businessUnit, month)
    ensures forall row :: multiset(r)[row] == if InScope(row, l, businessUnit, month) then multiset(rows)[row] else 0
    ensures IsSubsequence(r, rows)
  {
    if |rows| == 0 then []
    else
      assert rows == [rows[0]] + rows[1..];
      var rest := Scope(rows[1..], l, businessUnit, month);
      if InScope(rows[0], l, businessUnit, month) then
        assert ([rows[0]] + rest)[1..] == rest;
        [rows[0]] + rest
      else rest
  }

  // ---------------------------------------------------------------------------
  // Group by unit (lines 103-108)

  /** The distinct non-missing units of `rows` (groupby leaves out rows whose key is NaN). */
  function Units(rows: seq<Row>, l: Layout): (r: seq<Cell>)
    ensures forall a, b :: 0 <= a < b < |r| ==> r[a] != r[b]
    ensures forall c :: c in r ==> c != Empty && exists row :: row in rows && UnitOf(row, l) == c
    ensures forall row :: row in rows && UnitOf(row, l) != Empty ==> UnitOf(row, l) in r
  {
    if |rows| == 0 then []
    else
      var rest := Units(rows[1..], l);
      var u := UnitOf(rows[0], l);
      assert forall row :: row in rows[1..] ==> row in rows;
      if u == Empty || u in rest then rest else [u] + rest
  }

  /** The rows of unit `unit`, each as often as in `rows`, in order. */
  function Group(rows: seq<Row>, l: Layout, unit: Cell): (r: seq<Row>)
    ensures |r| <= |rows|
    ensures forall row :: row in r <==> row in rows && UnitOf(row, l) == unit
    ensures forall row :: multiset(r)[row] == if UnitOf(row, l) == unit then multiset(rows)[row] else 0
  {
    if |rows| == 0 then []
    else
      assert rows == [rows[0]] + rows[1..];
      if UnitOf(rows[0], l) == unit then [rows[0]] + Group(rows[1..], l, unit)
      else Group(rows[1..], l, unit)
  }

  /** Line 104: `'Viaje': 'count'` counts the rows whose trip id is present. */
  function TripCount(rows: seq<Row>, l: Layout): (n: nat)
    ensures n <= |rows|
    ensures n == 0 <==> forall row :: row in rows ==> CellAt(row, l.trip) == Empty
    ensures n == |Parser.DropMissing(rows, l.trip)|
  {
    if |rows| == 0 then 0
    else (if CellAt(rows[0], l.trip) != Empty then 1 else 0) + TripCount(rows[1..], l)
  }

  /** Lines 105-106: the sum of column `col`. */
  function ColumnSum(rows: seq<Row>, col: nat): (r: real)
    ensures (forall row :: row in rows ==> NumOf(CellAt(row, col)) >= 0.0) ==> r >= 0.0
    ensures (forall row :: row in rows ==> NumOf(CellAt(row, col)) == 0.0) ==> r == 0.0
  {
    if |rows| == 0 then 0.0
    else
      assert rows[0] in rows && forall row :: row in rows[1..] ==> row in rows;
      NumOf(CellAt(rows[0], col)) + ColumnSum(rows[1..], col)
  }

  /** Lines 100 and 107: the latest date among `rows`. */
  function LatestDay(rows: seq<Row>, l: Layout): (d: int)
    requires |rows| > 0 && DatedColumn(rows, l.date)
    ensures forall row :: row in rows ==> DayOf(row, l) <= d
    ensures exists row :: row in rows && DayOf(row, l) == d
  {
    if |rows| == 1 then DayOf(rows[0], l)
    else
      assert rows[0] in rows && forall row :: row in rows[1..] ==> row in rows;
      assert forall row :: row in rows ==> row == rows[0] || row in rows[1..];
      var rest := LatestDay(rows[1..], l);
      if DayOf(rows[0], l) >= rest then DayOf(rows[0], l) else rest
  }

  /** One row of the summary table (`summary_df` after line 111). */
  datatype UnitSummary = UnitSummary(
    unit: Cell, trips: nat, revenue: real, distance: real, lastTrip: int, inactivityDays: int)

  /** Some row is of unit `unit`. */
  predicate Present(rows: seq<Row>, l: Layout, unit: Cell)
  {
    exists row :: row in rows && UnitOf(row, l) == unit
  }

  /** Lines 103-111 for one unit: its group's aggregates and its days without a trip up to `lastReport`. */
  function Summarize(rows: seq<Row>, l: Layout, unit: Cell, lastReport: int): (s: UnitSummary)
    requires DatedColumn(rows, l.date)
    requires Present(rows, l, unit)
    requires forall row :: row in rows ==> DayOf(row, l) <= lastReport
    ensures s.unit == unit
    ensures s.trips <= |Group(rows, l, unit)|
    ensures s.trips == TripCount(Group(rows, l, unit), l)
    ensures s.revenue == ColumnSum(Group(rows, l, unit), l.revenue)
    ensures s.distance == ColumnSum(Group(rows, l, unit), l.distance)
    ensures forall row :: row in rows && UnitOf(row, l) == unit ==> DayOf(row, l) <= s.lastTrip
    ensures exists row :: row in rows && UnitOf(row, l) == unit && DayOf(row, l) == s.lastTrip
    ensures s.inactivityDays >= 0 && s.inactivityDays == lastReport - s.lastTrip
  {
    var g := Group(rows, l, unit);
    assert exists row :: row in g;
    var last := LatestDay(g, l);
    UnitSummary(unit, TripCount(g, l), ColumnSum(g, l.revenue), ColumnSum(g, l.distance), last, lastReport - last)
  }

  /** Every key is the unit of some row. */
  predicate AllPresent(rows: seq<Row>, l: Layout, keys: seq<Cell>)
  {
    forall i :: 0 <= i < |keys| ==> Present(rows, l, keys[i])
  }

  /** One summary per key, in the order of `keys`. */
  function Summaries(rows: seq<Row>, l: Layout, keys: seq<Cell>, lastReport: int): (r: seq<UnitSummary>)
    requires DatedColumn(rows, l.date)
    requires AllPresent(rows, l, keys)
    requires forall row :: row in rows ==> DayOf(row, l) <= lastReport
    ensures |r| == |keys|
    ensures forall i :: 0 <= i < |keys| ==> r[i] == Summarize(rows, l, keys[i], lastReport)
  {
    seq(|keys|, i requires 0 <= i < |keys| => Summarize(rows, l, keys[i], lastReport))
  }

  /** What the dashboard shows for a scope: the "no data" state, or the summary table. */
  datatype ScopeReport = NoData | Report(lastReportDate: int, units: seq<UnitSummary>)

  /** Lines 100-111 on a non-empty scope: group and measure inactivity against the scope's latest date. */
  function Summary(scope: seq<Row>, l: Layout): (r: ScopeReport)
    requires |scope| > 0 && DatedColumn(scope, l.date)
    ensures r.Report?
  {
    var last := LatestDay(scope, l);
    var units := Units(scope, l);
    assert AllPresent(scope, l, units) by {
      assert forall i :: 0 <= i < |units| ==> units[i] in units;
    }
    Report(last, Summaries(scope, l, units, last))
  }

  /** Lines 95-111: filter, then (for a non-empty scope) summarise. */
  function Aggregate(rows: seq<Row>, l: Layout, businessUnit: Cell, month: string): (r: ScopeReport)
    requires DatedColumn(rows, l.date)
    ensures r.NoData? <==> forall row :: row in rows ==> !InScope(row, l, businessUnit, month)
  {
    var scope := Scope(rows, l, businessUnit, month);
    if |scope| == 0 then NoData
    else
      assert scope[0] in scope;
      Summary(scope, l)
  }

  // ---------------------------------------------------------------------------
  // Properties of the summary table

  /** Summaries keep the keys' order, and each inactivity is at least zero. */
  lemma SummaryKeys(rows: seq<Row>, l: Layout, keys: seq<Cell>, lastReport: int)
    requires DatedColumn(rows, l.date)
    requires AllPresent(rows, l, keys)
    requires forall row :: row in rows ==> DayOf(row, l) <= lastReport
    ensures var r := Summaries(rows, l, keys, lastReport);
            |r| == |keys| && forall i :: 0 <= i < |r| ==> r[i].unit == keys[i] && r[i].inactivityDays >= 0
  {
  }

  /** The shape of a summary, as Summary builds it. */
  lemma SummaryOf(scope: seq<Row>, l: Layout)
    requires |scope| > 0 && DatedColumn(scope, l.date)
    ensures var keys := Units(scope, l);
            && AllPresent(scope, l, keys)
            && Summary(scope, l) == Report(LatestDay(scope, l), Summaries(scope, l, keys, LatestDay(scope, l)))
  {
    var keys := Units(scope, l);
    assert AllPresent(scope, l, keys) by {
      assert forall i :: 0 <= i < |keys| ==> keys[i] in keys;
    }
  }

  /** Lines 103-111 on a scope: one summary row per distinct unit of the scope and no other. */
  lemma SummaryUnits(scope: seq<Row>, l: Layout)
    requires |scope| > 0 && DatedColumn(scope, l.date)
    ensures var units := Summary(scope, l).units;
      && (forall a, b :: 0 <= a < b < |units| ==> units[a].unit != units[b].unit)
      && (forall i :: 0 <= i < |units| ==>
            units[i].unit != Empty && units[i].inactivityDays >= 0 && Present(scope, l, units[i].unit))
      && (forall row :: row in scope && UnitOf(row, l) != Empty ==>
            exists i :: 0 <= i < |units| && units[i].unit == UnitOf(row, l))
  {
    SummaryOf(scope, l);
    var keys := Units(scope, l);
    var last := LatestDay(scope, l);
    var units := Summaries(scope, l, keys, last);
    SummaryKeys(scope, l, keys, last);
    forall row | row in scope && UnitOf(row, l) != Empty
      ensures exists i :: 0 <= i < |units| && units[i].unit == UnitOf(row, l)
    {
      var i :| 0 <= i < |keys| && keys[i] == UnitOf(row, l);
      assert units[i].unit == keys[i];
    }
    forall i | 0 <= i < |units|
      ensures units[i].unit != Empty && Present(scope, l, units[i].unit)
    {
      assert keys[i] in keys;
    }
  }

  /** A key whose summary has zero inactivity owns a row dated `lastReport`. */
  lemma KeyOwner(rows: seq<Row>, l: Layout, keys: seq<Cell>, lastReport: int, i: nat)
    requires DatedColumn(rows, l.date)
    requires AllPresent(rows, l, keys)
    requires forall row :: row in rows ==> DayOf(row, l) <= lastReport
    requires i < |keys| && Summaries(rows, l, keys, lastReport)[i].inactivityDays == 0
    ensures exists row :: row in rows && UnitOf(row, l) == keys[i] && DayOf(row, l) == lastReport
  {
    var s := Summarize(rows, l, keys[i], lastReport);
    var row :| row in rows && UnitOf(row, l) == keys[i] && DayOf(row, l) == s.lastTrip;
  }

  /** A unit with zero inactivity owns a row carrying the scope's latest date. */
  lemma ZeroInactivityOwner(scope: seq<Row>, l: Layout, i: nat)
    requires |scope| > 0 && DatedColumn(scope, l.date)
    requires i < |Summary(scope, l).units| && Summary(scope, l).units[i].inactivityDays == 0
    ensures exists row :: row in scope && UnitOf(row, l) == Summary(scope, l).units[i].unit &&
                          DayOf(row, l) == Summary(scope, l).lastReportDate
  {
    SummaryOf(scope, l);
    SummaryKeys(scope, l, Units(scope, l), LatestDay(scope, l));
    KeyOwner(scope, l, Units(scope, l), LatestDay(scope, l), i);
  }

  /** The unit of a row carrying the scope's latest date has zero inactivity. */
  lemma LatestRowUnitIsActive(scope: seq<Row>, l: Layout, row: Row)
    requires |scope| > 0 && DatedColumn(scope, l.date)
    requires row in scope && UnitOf(row, l) != Empty && DayOf(row, l) == Summary(scope, l).lastReportDate
    ensures var units := Summary(scope, l).units;
            exists i :: 0 <= i < |units| && units[i].unit == UnitOf(row, l) && units[i].inactivityDays == 0
  {
    SummaryOf(scope, l);
    var keys := Units(scope, l);
    var last := LatestDay(scope, l);
    var i :| 0 <= i < |keys| && keys[i] == UnitOf(row, l);
    var s := Summarize(scope, l, keys[i], last);
    assert DayOf(row, l) <= s.lastTrip;
  }

  /** Lines 100 and 111 on a scope: some unit has zero inactivity iff a latest-dated row has a unit. */
  lemma SummaryZeroInactivity(scope: seq<Row>, l: Layout)
    requires |scope| > 0 && DatedColumn(scope, l.date)
    ensures var r := Summary(scope, l);
      (exists i :: 0 <= i < |r.units| && r.units[i].inactivityDays == 0) <==>
      (exists row :: row in scope && UnitOf(row, l) != Empty && DayOf(row, l) == r.lastReportDate)
  {
    var r := Summary(scope, l);
    if i :| 0 <= i < |r.units| && r.units[i].inactivityDays == 0 {
      SummaryUnits(scope, l);
      ZeroInactivityOwner(scope, l, i);
    }
    if row :| row in scope && UnitOf(row, l) != Empty && DayOf(row, l) == r.lastReportDate {
      LatestRowUnitIsActive(scope, l, row);
    }
  }

  /** A non-empty report is the summary of the scope. */
  lemma ReportOf(rows: seq<Row>, l: Layout, businessUnit: Cell, month: string)
    requires DatedColumn(rows, l.date)
    requires Aggregate(rows, l, businessUnit, month).Report?
    ensures var scope := Scope(rows, l, businessUnit, month);
            && |scope| > 0 && DatedColumn(scope, l.date)
            && Aggregate(rows, l, businessUnit, month) == Summary(scope, l)
  {
  }

  /**
   * Lines 103-111: the summary has one row per distinct unit of the scope and no other, and
   * every unit's inactivity is at least zero.
   */
  lemma ReportUnits(rows: seq<Row>, l: Layout, businessUnit: Cell, month: string)
    requires DatedColumn(rows, l.date)
    requires Aggregate(rows, l, businessUnit, month).Report?
    ensures var r := Aggregate(rows, l, businessUnit, month);
      && (forall a, b :: 0 <= a < b < |r.units| ==> r.units[a].unit != r.units[b].unit)
      && (forall i :: 0 <= i < |r.units| ==>
            r.units[i].unit != Empty && r.units[i].inactivityDays >= 0 &&
            exists row :: row in rows && InScope(row, l, businessUnit, month) && UnitOf(row, l) == r.units[i].unit)
      && (forall row :: row in rows && InScope(row, l, businessUnit, month) && UnitOf(row, l) != Empty ==>
            exists i :: 0 <= i < |r.units| && r.units[i].unit == UnitOf(row, l))
  {
    ReportOf(rows, l, businessUnit, month);
    var scope := Scope(rows, l, businessUnit, month);
    SummaryUnits(scope, l);
    var units := Summary(scope, l).units;
    forall i | 0 <= i < |units|
      ensures exists row :: row in rows && InScope(row, l, businessUnit, month) && UnitOf(row, l) == units[i].unit
    {
      assert Present(scope, l, units[i].unit);
    }
  }

  /** Line 100: the report date is the latest date of the scope. */
  lemma ReportDate(rows: seq<Row>, l: Layout, businessUnit: Cell, month: string)
    requires DatedColumn(rows, l.date)
    requires Aggregate(rows, l, businessUnit, month).Report?
    ensures var r := Aggregate(rows, l, businessUnit, month);
      && (forall row :: row in rows && InScope(row, l, businessUnit, month) ==> DayOf(row, l) <= r.lastReportDate)
      && (exists row :: row in rows && InScope(row, l, businessUnit, month) && DayOf(row, l) == r.lastReportDate)
  {
    ReportOf(rows, l, businessUnit, month);
    var scope := Scope(rows, l, businessUnit, month);
    var row :| row in scope && DayOf(row, l) == LatestDay(scope, l);
    assert row in rows && InScope(row, l, businessUnit, month);
  }

  /**
   * Lines 100 and 111: some unit has zero inactivity exactly when a row carrying the scope's
   * latest date has a unit. groupby drops rows without a unit, but the report date is taken
   * over every row of the scope.
   */
  lemma ZeroInactivity(rows: seq<Row>, l: Layout, businessUnit: Cell, month: string)
    requires DatedColumn(rows, l.date)
    requires Aggregate(rows, l, businessUnit, month).Report?
    ensures var r := Aggregate(rows, l, businessUnit, month);
      (exists i :: 0 <= i < |r.units| && r.units[i].inactivityDays == 0) <==>
      (exists row :: row in rows && InScope(row, l, businessUnit, month) &&
                     UnitOf(row, l) != Empty && DayOf(row, l) == r.lastReportDate)
  {
    ReportOf(rows, l, businessUnit, month);
    SummaryZeroInactivity(Scope(rows, l, businessUnit, month), l);
  }

  /**
   * Lines 100 and 111: when a row without a unit is later than every row with one, no unit has
   * zero inactivity, although the summary is not empty when some row has a unit.
   */
  lemma LatestRowWithoutUnit(scope: seq<Row>, l: Layout, late: Row)
    requires |scope| > 0 && DatedColumn(scope, l.date)
    requires late in scope && UnitOf(late, l) == Empty
    requires forall row :: row in scope && UnitOf(row, l) != Empty ==> DayOf(row, l) < DayOf(late, l)
    ensures var r := Summary(scope, l);
            && ((exists row :: row in scope && UnitOf(row, l) != Empty) ==> |r.units| > 0)
            && forall i :: 0 <= i < |r.units| ==> r.units[i].inactivityDays > 0
  {
    assert DayOf(late, l) <= Summary(scope, l).lastReportDate;
    SummaryUnits(scope, l);
    SummaryZeroInactivity(scope, l);
  }

  /** A scope in which every row has a unit always has a unit with zero inactivity. */
  lemma ZeroInactivityWhenAllKeyed(rows: seq<Row>, l: Layout, businessUnit: Cell, month: string)
    requires DatedColumn(rows, l.date)
    requires Aggregate(rows, l, businessUnit, month).Report?
    requires forall row :: row in rows && InScope(row, l, businessUnit, month) ==> UnitOf(row, l) != Empty
    ensures var r := Aggregate(rows, l, businessUnit, month);
            exists i :: 0 <= i < |r.units| && r.units[i].inactivityDays == 0
  {
    ReportDate(rows, l, businessUnit, month);
    ZeroInactivity(rows, l, businessUnit, month);
  }

  // Revenue and distance are conserved by the grouping.

  /** The rows whose unit is present (the rows groupby keeps). */
  function Keyed(rows: seq<Row>, l: Layout): seq<Row>
  {
    if |rows| == 0 then []
    else if UnitOf(rows[0], l) != Empty then [rows[0]] + Keyed(rows[1..], l)
    else Keyed(rows[1..], l)
  }

  /** The rows whose unit is one of `keys`. */
  function InUnits(rows: seq<Row>, l: Layout, keys: seq<Cell>): seq<Row>
  {
    if |rows| == 0 then []
    else if UnitOf(rows[0], l) in keys then [rows[0]] + InUnits(rows[1..], l, keys)
    else InUnits(rows[1..], l, keys)
  }

  /** The sum of column `col` over the groups of `keys`, one group after another. */
  function GroupSums(rows: seq<Row>, l: Layout, keys: seq<Cell>, col: nat): real
  {
    if |keys| == 0 then 0.0 else ColumnSum(Group(rows, l, keys[0]), col) + GroupSums(rows, l, keys[1..], col)
  }

  function TotalRevenue(units: seq<UnitSummary>): real
  {
    if |units| == 0 then 0.0 else units[0].revenue + TotalRevenue(units[1..])
  }

  function TotalDistance(units: seq<UnitSummary>): real
  {
    if |units| == 0 then 0.0 else units[0].distance + TotalDistance(units[1..])
  }

  lemma {:induction false} SplitSum(rows: seq<Row>, l: Layout, k: Cell, keys: seq<Cell>, col: nat)
    requires k !in keys
    ensures ColumnSum(InUnits(rows, l, [k] + keys), col) ==
            ColumnSum(Group(rows, l, k), col) + ColumnSum(InUnits(rows, l, keys), col)
  {
    if |rows| > 0 {
      SplitSum(rows[1..], l, k, keys, col);
    }
  }

  lemma {:induction false} NoUnitsNoRows(rows: seq<Row>, l: Layout)
    ensures InUnits(rows, l, []) == []
  {
    if |rows| > 0 {
      NoUnitsNoRows(rows[1..], l);
    }
  }

  /** Summing group by group over distinct keys is summing over the rows of those keys. */
  lemma {:induction false} GroupSumsPartition(rows: seq<Row>, l: Layout, keys: seq<Cell>, col: nat)
    requires forall a, b :: 0 <= a < b < |keys| ==> keys[a] != keys[b]
    ensures GroupSums(rows, l, keys, col) == ColumnSum(InUnits(rows, l, keys), col)
  {
    if |keys| == 0 {
      NoUnitsNoRows(rows, l);
    } else {
      assert keys == [keys[0]] + keys[1..];
      SplitSum(rows, l, keys[0], keys[1..], col);
      GroupSumsPartition(rows, l, keys[1..], col);
    }
  }

  lemma {:induction false} InUnitsKeyed(rows: seq<Row>, l: Layout, keys: seq<Cell>)
    requires forall row :: row in rows ==> (UnitOf(row, l) in keys <==> UnitOf(row, l) != Empty)
    ensures InUnits(rows, l, keys) == Keyed(rows, l)
  {
    if |rows| > 0 {
      assert rows[0] in rows;
      assert forall row :: row in rows[1..] ==> row in rows;
      InUnitsKeyed(rows[1..], l, keys);
    }
  }

  lemma {:induction false} KeyedAll(rows: seq<Row>, l: Layout)
    requires forall row :: row in rows ==> UnitOf(row, l) != Empty
    ensures Keyed(rows, l) == rows
  {
    if |rows| > 0 {
      assert rows[0] in rows;
      assert forall row :: row in rows[1..] ==> row in rows;
      KeyedAll(rows[1..], l);
    }
  }

  lemma {:induction false} SummaryTotals(rows: seq<Row>, l: Layout, keys: seq<Cell>, units: seq<UnitSummary>)
    requires |units| == |keys|
    requires forall i :: 0 <= i < |keys| ==>
               units[i].revenue == ColumnSum(Group(rows, l, keys[i]), l.revenue) &&
               units[i].distance == ColumnSum(Group(rows, l, keys[i]), l.distance)
    ensures TotalRevenue(units) == GroupSums(rows, l, keys, l.revenue)
    ensures TotalDistance(units) == GroupSums(rows, l, keys, l.distance)
  {
    if |keys| > 0 {
      assert forall i :: 0 <= i < |keys| - 1 ==> keys[1..][i] == keys[i + 1] && units[1..][i] == units[i + 1];
      SummaryTotals(rows, l, keys[1..], units[1..]);
    }
  }

  /**
   * Lines 103-108: the units' revenues add up to the revenue of the scope rows that have a
   * unit, and likewise for distance; when every scope row has a unit, that is the scope's
   * total revenue (line 120) and distance.
   */
  lemma TotalsConserved(rows: seq<Row>, l: Layout, businessUnit: Cell, month: string)
    requires DatedColumn(rows, l.date)
    requires Aggregate(rows, l, businessUnit, month).Report?
    ensures var scope := Scope(rows, l, businessUnit, month);
            var r := Aggregate(rows, l, businessUnit, month);
            && TotalRevenue(r.units) == ColumnSum(Keyed(scope, l), l.revenue)
            && TotalDistance(r.units) == ColumnSum(Keyed(scope, l), l.distance)
            && ((forall row :: row in scope ==> UnitOf(row, l) != Empty) ==>
                  TotalRevenue(r.units) == ColumnSum(scope, l.revenue) &&
                  TotalDistance(r.units) == ColumnSum(scope, l.distance))
  {
    var scope := Scope(rows, l, businessUnit, month);
    var keys := Units(scope, l);
    ReportOf(rows, l, businessUnit, month);
    SummaryOf(scope, l);
    var units := Summary(scope, l).units;
    SummaryTotals(scope, l, keys, units);
    GroupSumsPartition(scope, l, keys, l.revenue);
    GroupSumsPartition(scope, l, keys, l.distance);
    InUnitsKeyed(scope, l, keys);
    if forall row :: row in scope ==> UnitOf(row, l) != Empty {
      KeyedAll(scope, l);
    }
  }
}
