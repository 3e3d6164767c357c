/**
 * One calculation end to end (app.py:69-154): from the re-read table and the
 * sidebar settings to the four subtotals, the total and the price per
 * operating hour, including the ways the calculation stops with an error.
 */
module Calculator {
  import opened Wrappers
  import opened Sheet
  import opened Intervals
  import opened Sections
  import opened Costs

  /** The sidebar values the calculation reads: ordretype, avance and timepris. */
  datatype Settings = Settings(priceList: string, markupPct: int, rate: int)

  /** Why a calculation stops: the exception the script reports. */
  datatype Failure =
    | TooFewColumns                    // df.columns[7] on a sheet of fewer than eight columns
    | UnreadableHours(column: string)  // int() of the digits of an interval label without digits
    | NoIntervalsBeforeCutoff          // st.columns(0) when no interval lies before the cutoff
    | MissingColumn(name: string)      // a KeyError for the quantity or price-list column

  /** What a successful calculation shows. */
  datatype Report = Report(
    cutoff: nat,
    hist: seq<string>,
    hours: map<string, real>,
    subtotals: Subtotals,
    total: real,
    perHour: real)

  /** A report, nothing at all when the sheet has no interval columns, or a failure. */
  datatype Outcome = Computed(report: Report) | NoIntervalColumns | Failed(failure: Failure)

  /** Column H must exist: the sheet needs at least eight columns. */
  const MinColumns: nat := FixedPriceColumn + 1

  /**
   * The column the first interval of the history finds missing, if any:
   * row["Antal"] is looked up only when that interval has miscellaneous
   * rows, then res_df[ordretype] and res_df['Antal'] are looked up always.
   */
  function MissingColumnOf(t: Table, cols: seq<string>, priceList: string, first: string): (r: Option<string>)
    requires first in cols
    ensures r.None? <==> QuantityName in cols && priceList in cols
    ensures r.Some? ==> r.value !in cols && (r.value == QuantityName || r.value == priceList)
    ensures r.Some? && r.value != QuantityName ==> QuantityName in cols || SectionRows(t, ColumnIndex(cols, first), Misc) == []
    ensures r.Some? && r.value == QuantityName && priceList != QuantityName && priceList !in cols ==>
              SectionRows(t, ColumnIndex(cols, first), Misc) != []
  {
    if QuantityName !in cols && SectionRows(t, ColumnIndex(cols, first), Misc) != [] then Some(QuantityName)
    else if priceList !in cols then Some(priceList)
    else if QuantityName !in cols then Some(QuantityName)
    else None
  }

  /** The columns and settings the cost functions read. */
  function LayoutOf(cols: seq<string>, settings: Settings): Layout
    requires QuantityName in cols && settings.priceList in cols
  {
    Layout(cols, ColumnIndex(cols, settings.priceList), ColumnIndex(cols, QuantityName), settings.markupPct, settings.rate)
  }

  /** The report's hours are the typed or standard hours of each interval of its history. */
  predicate HoursOfHistory(t: Table, typed: map<string, real>, r: Report) {
    var cols := Columns(t);
    && (forall iv :: iv in r.hist ==> iv in cols)
    && r.hours.Keys == (set iv | iv in r.hist)
    && (forall iv :: iv in r.hist ==> r.hours[iv] == HoursFor(t, cols, iv, typed))
  }

  /** The report's subtotals are t_res, t_fluid, t_div and t_arb of its history. */
  predicate CostsOfHistory(t: Table, settings: Settings, r: Report) {
    var cols := Columns(t);
    && QuantityName in cols && settings.priceList in cols
    && (forall iv :: iv in r.hist ==> iv in r.hours && iv in cols)
    && var lay := LayoutOf(cols, settings);
    && r.subtotals.parts == Sum(PartsCosts(t, lay, r.hist))
    && r.subtotals.fluids == Sum(FluidsCosts(t, lay, r.hist))
    && r.subtotals.misc == Sum(MiscCosts(t, cols, r.hist))
    && r.subtotals.labor == Sum(LaborCosts(r.hist, r.hours, settings.rate))
  }

  /** total_omk is the sum of the subtotals and cph spreads it over the cutoff. */
  predicate Totalled(r: Report) {
    && r.cutoff > 0
    && r.total == r.subtotals.parts + r.subtotals.fluids + r.subtotals.misc + r.subtotals.labor
    && r.perHour * r.cutoff as real == r.total
  }

  /** The subtotals with their total and price per hour. */
  function Summary(cutoff: nat, hist: seq<string>, hours: map<string, real>, s: Subtotals): (r: Report)
    requires cutoff > 0
    ensures Totalled(r)
    ensures r.cutoff == cutoff && r.hist == hist && r.hours == hours && r.subtotals == s
  {
    var total := s.parts + s.fluids + s.misc + s.labor;
    Report(cutoff, hist, hours, s, total, CostPerHour(total, cutoff))
  }

  /**
   * The costing of a non-empty history (app.py:87-154): the hours, the
   * column lookups of the first interval, the loop over the history and the
   * totals.
   */
  method Price(t: Table, settings: Settings, cutoff: nat, hist: seq<string>, typed: map<string, real>) returns (o: Outcome)
    requires hist != [] && cutoff > 0
    requires forall iv :: iv in hist ==> iv in Columns(t)
    ensures o.Computed? || (o.Failed? && o.failure.MissingColumn?)
    ensures o.Failed? ==> MissingColumnOf(t, Columns(t), settings.priceList, hist[0]) == Some(o.failure.name)
    ensures o.Computed? ==> o.report.cutoff == cutoff && o.report.hist == hist
    ensures o.Computed? ==> HoursOfHistory(t, typed, o.report)
    ensures o.Computed? ==> CostsOfHistory(t, settings, o.report)
    ensures o.Computed? ==> Totalled(o.report)
    ensures o.Computed? ==> o.report.subtotals.misc >= |hist| as real * MiscSurcharge
  {
    var cols := Columns(t);
    assert hist[0] in hist;
    var hours := LaborHours(t, cols, hist, typed);
    var missing := MissingColumnOf(t, cols, settings.priceList, hist[0]);
    if missing.Some? {
      return Failed(MissingColumn(missing.value));
    }
    var lay := LayoutOf(cols, settings);
    var s := Aggregate(t, lay, hist, hours);
    MiscTotalAtLeastSurcharges(t, cols, hist);
    o := Computed(Summary(cutoff, hist, hours, s));
  }

  /**
   * The calculation for the chosen interval label, with the hours the user
   * typed over the standard ones. The chosen label is one of the interval
   * columns, as the select box offers only those.
   */
  method Calculate(t: Table, settings: Settings, chosen: string, typed: map<string, real>) returns (o: Outcome)
    requires IntervalColumns(Columns(t)) == [] || chosen in IntervalColumns(Columns(t))
    ensures o == Failed(TooFewColumns) <==> |Columns(t)| < MinColumns
    ensures o == NoIntervalColumns <==> |Columns(t)| >= MinColumns && IntervalColumns(Columns(t)) == []
    ensures o.Failed? && o.failure.UnreadableHours? <==>
              |Columns(t)| >= MinColumns && IntervalColumns(Columns(t)) != [] &&
              SelectHistory(IntervalColumns(Columns(t)), chosen).Err?
    ensures o.Failed? && o.failure.UnreadableHours? ==>
              o.failure.column in IntervalColumns(Columns(t)) && HourCount(o.failure.column).None?
    ensures o == Failed(NoIntervalsBeforeCutoff) <==>
              |Columns(t)| >= MinColumns && IntervalColumns(Columns(t)) != [] &&
              SelectHistory(IntervalColumns(Columns(t)), chosen).Ok? &&
              SelectHistory(IntervalColumns(Columns(t)), chosen).value.hist == []
    ensures o.Failed? && o.failure.MissingColumn? ==>
              o.failure.name !in Columns(t) && (o.failure.name == QuantityName || o.failure.name == settings.priceList)
    ensures o.Failed? && o.failure.MissingColumn? ==>
              && SelectHistory(IntervalColumns(Columns(t)), chosen).Ok?
              && SelectHistory(IntervalColumns(Columns(t)), chosen).value.hist != []
              && MissingColumnOf(t, Columns(t), settings.priceList, SelectHistory(IntervalColumns(Columns(t)), chosen).value.hist[0])
                   == Some(o.failure.name)
    ensures o.Computed? ==>
              && SelectHistory(IntervalColumns(Columns(t)), chosen) == Ok(Selection(o.report.cutoff, o.report.hist))
              && HoursOfHistory(t, typed, o.report)
              && CostsOfHistory(t, settings, o.report)
              && Totalled(o.report)
              && o.report.subtotals.misc >= |o.report.hist| as real * MiscSurcharge
  {
    var cols := Columns(t);
    if |cols| < MinColumns {
      return Failed(TooFewColumns);
    }
    var ints := IntervalColumns(cols);
    if ints == [] {
      return NoIntervalColumns;
    }
    var selection := SelectHistory(ints, chosen);
    if selection.Err? {
      return Failed(UnreadableHours(selection.error));
    }
    var cutoff, hist := selection.value.cutoff, selection.value.hist;
    if hist == [] {
      return Failed(NoIntervalsBeforeCutoff);
    }
    assert hist[0] in hist;
    o := Price(t, settings, cutoff, hist, typed);
  }
}
