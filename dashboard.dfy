/**
 * The flow of the page once a report is uploaded (lines 80-132): process the report; show
 * the error if it failed; otherwise filter to the selected business unit and month, show
 * "no data" for an empty scope, or the summary table with its chart bands and styles.
 */
module Dashboard {
  import opened Wrappers
  import opened Sheet
  import Parser
  import Aggregator
  import Categorizer

  datatype View =
    | Failed(error: Parser.Outcome)
    | NoData
    | Shown(report: Aggregator.ScopeReport, categories: seq<Categorizer.Categories>, styles: seq<Categorizer.Semaphore>)

  /** A processed table has every column the aggregation reads, and a date in every row. */
  lemma CleanedLayout(t: Table, unitColumn: string, cv: Parser.Coercions)
    requires Parser.Cleaned(t, cv) && unitColumn in t.headers
    ensures Aggregator.LayoutOf(t.headers, unitColumn).Some?
    ensures DatedColumn(t.rows, Aggregator.LayoutOf(t.headers, unitColumn).value.date)
  {
    assert Parser.BUSINESS_UNIT_COLUMN in Parser.REQUIRED && Parser.TRIP_COLUMN in Parser.REQUIRED;
  }

  /** Lines 80-132 for one selection of business unit and month. */
  function Run(raw: Table, cv: Parser.Coercions, businessUnit: Cell, month: string): (v: View)
    ensures v.Failed? <==> !Parser.Process(raw, cv).Processed?
    ensures v.Failed? ==> v.error == Parser.Process(raw, cv)
    ensures v.Shown? ==>
              v.report.Report? && |v.categories| == |v.report.units| && |v.styles| == |v.report.units|
    ensures v.Shown? ==>
              v.categories == Categorizer.CategorizeAll(v.report.units) &&
              v.styles == Categorizer.StyleAll(v.report.units)
    ensures Parser.Process(raw, cv).Processed? ==>
              var t := Parser.Process(raw, cv).table;
              Aggregator.LayoutOf(t.headers, Parser.Process(raw, cv).unitColumn).Some? &&
              var l := Aggregator.LayoutOf(t.headers, Parser.Process(raw, cv).unitColumn).value;
              && (v.NoData? <==> forall row :: row in t.rows ==> !Aggregator.InScope(row, l, businessUnit, month))
              && (v.Shown? ==> DatedColumn(t.rows, l.date) && v.report == Aggregator.Aggregate(t.rows, l, businessUnit, month))
  {
    match Parser.Process(raw, cv)
    case Processed(t, unitColumn) =>
      Parser.ProcessedShape(raw, cv);
      CleanedLayout(t, unitColumn, cv);
      var l := Aggregator.LayoutOf(t.headers, unitColumn).value;
      var report := Aggregator.Aggregate(t.rows, l, businessUnit, month);
      if report.NoData? then NoData
      else Shown(report, Categorizer.CategorizeAll(report.units), Categorizer.StyleAll(report.units))
    case error => Failed(error)
  }

  /**
   * A report that passes validation and in which no "Fecha" cell parses leaves nothing to
   * show: every selection gives the "no data" state, not an error.
   */
  lemma NoDatesNoData(raw: Table, cv: Parser.Coercions, businessUnit: Cell, month: string)
    requires Parser.Process(raw, cv).Processed?
    requires forall i, j :: 0 <= i < |raw.rows| && 0 <= j < |raw.headers| && raw.headers[j] == Parser.DATE_COLUMN ==>
               Parser.ToDate(CellAt(raw.rows[i], j), cv).None?
    ensures Run(raw, cv, businessUnit, month) == NoData
  {
    Parser.NoParsableDates(raw, cv);
  }

  /**
   * For a shown summary: the units are distinct, every one has non-negative inactivity, and
   * when every row of the selection has a unit, one of them has zero inactivity and their
   * revenues add up to the selection's total revenue.
   */
  lemma ShownSummary(raw: Table, cv: Parser.Coercions, businessUnit: Cell, month: string)
    requires Run(raw, cv, businessUnit, month).Shown?
    ensures var units := Run(raw, cv, businessUnit, month).report.units;
            && (forall a, b :: 0 <= a < b < |units| ==> units[a].unit != units[b].unit)
            && (forall i :: 0 <= i < |units| ==> units[i].inactivityDays >= 0)
    ensures var t := Parser.Process(raw, cv).table;
            var u := Parser.Process(raw, cv).unitColumn;
            Aggregator.LayoutOf(t.headers, u).Some? &&
            var l := Aggregator.LayoutOf(t.headers, u).value;
            var units := Run(raw, cv, businessUnit, month).report.units;
            (forall row :: row in t.rows && Aggregator.InScope(row, l, businessUnit, month) ==>
               Aggregator.UnitOf(row, l) != Empty) ==>
            && (exists i :: 0 <= i < |units| && units[i].inactivityDays == 0)
            && Aggregator.TotalRevenue(units) ==
               Aggregator.ColumnSum(Aggregator.Scope(t.rows, l, businessUnit, month), l.revenue)
  {
    var t := Parser.Process(raw, cv).table;
    var u := Parser.Process(raw, cv).unitColumn;
    Parser.ProcessedShape(raw, cv);
    CleanedLayout(t, u, cv);
    var l := Aggregator.LayoutOf(t.headers, u).value;
    Aggregator.ReportUnits(t.rows, l, businessUnit, month);
    Aggregator.TotalsConserved(t.rows, l, businessUnit, month);
    if forall row :: row in t.rows && Aggregator.InScope(row, l, businessUnit, month) ==> Aggregator.UnitOf(row, l) != Empty {
      Aggregator.ZeroInactivityWhenAllKeyed(t.rows, l, businessUnit, month);
    }
  }
}
