/**
 * Cost aggregation (app.py:87-154): per interval, parts are priced from the
 * chosen price list with markup, fluids from column H times quantity, and
 * miscellaneous items from column H plus a fixed surcharge; labour is hours
 * times the hourly rate. The subtotals are summed over the history.
 */
module Costs {
  import opened Text
  import opened Numbers
  import opened Sheet
  import opened Sections

  /** FAST_DIVERSE_TILLAEG: added once to the miscellaneous items of every interval. */
  const MiscSurcharge: real := 500.0
  /** vare_kol, the part number, is the second column. */
  const PartNoColumn: nat := 1
  /** pris_kol_h, column H: the price of fluids and miscellaneous items. */
  const FixedPriceColumn: nat := 7
  /** The quantity column. */
  const QuantityName := "Antal"

  /** The markup factor 1 + avance/100. */
  function Markup(pct: int): real {
    1.0 + pct as real / 100.0
  }

  /** The columns and sidebar values one calculation works with. */
  datatype Layout = Layout(cols: seq<string>, price: nat, qty: nat, markupPct: int, rate: int)

  // ---- Column arithmetic, as pandas does it on whole columns ----

  /** df[col].apply(rens_tal) restricted to the given rows. */
  function Cleaned(t: Table, rows: seq<nat>, col: nat): (xs: seq<real>)
    ensures |xs| == |rows|
  {
    seq(|rows|, k requires 0 <= k < |rows| => Clean(CellAt(t, rows[k], col)))
  }

  /** xs * ys, element by element. */
  function Times(xs: seq<real>, ys: seq<real>): (zs: seq<real>)
    requires |xs| == |ys|
    ensures |zs| == |xs|
  {
    seq(|xs|, k requires 0 <= k < |xs| => xs[k] * ys[k])
  }

  /** xs * f, element by element. */
  function Scale(xs: seq<real>, f: real): (zs: seq<real>)
    ensures |zs| == |xs|
  {
    seq(|xs|, k requires 0 <= k < |xs| => xs[k] * f)
  }

  /** .sum() */
  function Sum(xs: seq<real>): real {
    if xs == [] then 0.0 else Sum(xs[..|xs| - 1]) + xs[|xs| - 1]
  }

  predicate NonNegative(xs: seq<real>) {
    forall k :: 0 <= k < |xs| ==> xs[k] >= 0.0
  }

  lemma {:induction false} SumOfNonNegative(xs: seq<real>)
    requires NonNegative(xs)
    ensures Sum(xs) >= 0.0
  {
    if xs != [] {
      SumOfNonNegative(xs[..|xs| - 1]);
    }
  }

  /** Scaling every element scales the sum: the markup can be taken out of c_res. */
  lemma {:induction false} SumOfScale(xs: seq<real>, f: real)
    ensures Sum(Scale(xs, f)) == f * Sum(xs)
  {
    if xs != [] {
      var init := xs[..|xs| - 1];
      assert Scale(xs, f)[..|xs| - 1] == Scale(init, f) by {
        forall k | 0 <= k < |init|
          ensures Scale(xs, f)[k] == Scale(init, f)[k]
        {
        }
      }
      SumOfScale(init, f);
      assert f * Sum(xs) == f * Sum(init) + f * xs[|xs| - 1];
    }
  }

  /** Terms that are f times other terms sum to f times their sum. */
  lemma {:induction false} SumOfMultiples(xs: seq<real>, ys: seq<real>, f: real)
    requires |xs| == |ys|
    requires forall k :: 0 <= k < |xs| ==> xs[k] == f * ys[k]
    ensures Sum(xs) == f * Sum(ys)
  {
    if xs != [] {
      var n := |xs| - 1;
      SumOfMultiples(xs[..n], ys[..n], f);
    }
  }

  lemma TimesOfNonNegative(xs: seq<real>, ys: seq<real>)
    requires |xs| == |ys| && NonNegative(xs) && NonNegative(ys)
    ensures NonNegative(Times(xs, ys))
  {
    forall k | 0 <= k < |xs|
      ensures Times(xs, ys)[k] >= 0.0
    {
      NonNegativeProduct(xs[k], ys[k]);
    }
  }

  lemma NonNegativeProduct(a: real, b: real)
    requires a >= 0.0 && b >= 0.0
    ensures a * b >= 0.0
  {
  }

  // ---- One interval ----

  /** pris * antal for each parts row of interval column ic, before markup. */
  function PartsLines(t: Table, lay: Layout, ic: nat): seq<real> {
    var rows := SectionRows(t, ic, Parts);
    Times(Cleaned(t, rows, lay.price), Cleaned(t, rows, lay.qty))
  }

  /** c_res: the parts of interval column ic at the chosen price list, times quantity, marked up. */
  function PartsCost(t: Table, lay: Layout, ic: nat): real {
    Sum(Scale(PartsLines(t, lay, ic), Markup(lay.markupPct)))
  }

  /** c_fluid: the fluids of interval column ic at the column-H price times quantity, no markup. */
  function FluidsCost(t: Table, lay: Layout, ic: nat): real {
    var rows := SectionRows(t, ic, Fluids);
    Sum(Times(Cleaned(t, rows, FixedPriceColumn), Cleaned(t, rows, lay.qty)))
  }

  /** c_div as the source means it: the column-H prices of the miscellaneous items of ic, plus the surcharge. */
  function MiscCost(t: Table, ic: nat): real {
    Sum(Cleaned(t, SectionRows(t, ic, Misc), FixedPriceColumn)) + MiscSurcharge
  }

  /**
   * The markup multiplies the whole parts cost and touches nothing else:
   * the parts cost is the plain price × quantity sum times 1 + avance/100.
   */
  lemma PartsCostIsMarkedUp(t: Table, lay: Layout, ic: nat)
    ensures PartsCost(t, lay, ic) == Markup(lay.markupPct) * Sum(PartsLines(t, lay, ic))
  {
    SumOfScale(PartsLines(t, lay, ic), Markup(lay.markupPct));
  }

  /** Every cost of one interval is non-negative, the miscellaneous one at least the surcharge. */
  lemma IntervalCostBounds(t: Table, lay: Layout, ic: nat)
    requires lay.markupPct >= -100
    ensures PartsCost(t, lay, ic) >= 0.0
    ensures FluidsCost(t, lay, ic) >= 0.0
    ensures MiscCost(t, ic) >= MiscSurcharge
  {
    var parts, fluids, misc := SectionRows(t, ic, Parts), SectionRows(t, ic, Fluids), SectionRows(t, ic, Misc);
    TimesOfNonNegative(Cleaned(t, parts, lay.price), Cleaned(t, parts, lay.qty));
    var plain := PartsLines(t, lay, ic);
    SumOfNonNegative(plain);
    SumOfScale(plain, Markup(lay.markupPct));
    NonNegativeProduct(Markup(lay.markupPct), Sum(plain));
    TimesOfNonNegative(Cleaned(t, fluids, FixedPriceColumn), Cleaned(t, fluids, lay.qty));
    SumOfNonNegative(Times(Cleaned(t, fluids, FixedPriceColumn), Cleaned(t, fluids, lay.qty)));
    SumOfNonNegative(Cleaned(t, misc, FixedPriceColumn));
  }

  /** One entry of div_list. */
  datatype MiscItem = MiscItem(description: Cell, partNo: Cell, quantity: Cell, price: real)

  /** The entry div_list gets for sheet row r. */
  function ItemOf(t: Table, r: nat, qty: nat): MiscItem {
    MiscItem(Description(t, r), CellAt(t, r, PartNoColumn), CellAt(t, r, qty), Clean(CellAt(t, r, FixedPriceColumn)))
  }

  /** The fixed "Diverse tillæg (fast)" entry closing every div_list. */
  function SurchargeItem(): MiscItem {
    MiscItem(Str("Diverse tillæg (fast)"), Str("-"), Str("1"), MiscSurcharge)
  }

  /** div_list: one entry per miscellaneous row, in order, then the surcharge entry. */
  method MiscList(t: Table, rows: seq<nat>, qty: nat) returns (items: seq<MiscItem>)
    ensures |items| == |rows| + 1
    ensures forall k :: 0 <= k < |rows| ==> items[k] == ItemOf(t, rows[k], qty)
    ensures items[|rows|] == SurchargeItem()
  {
    items := [];
    for k := 0 to |rows|
      invariant |items| == k
      invariant forall j :: 0 <= j < k ==> items[j] == ItemOf(t, rows[j], qty)
    {
      items := items + [ItemOf(t, rows[k], qty)];
    }
    items := items + [SurchargeItem()];
  }

  /** sum(item["Pris"] for item in div_list) */
  function ItemsTotal(items: seq<MiscItem>): real {
    if items == [] then 0.0 else ItemsTotal(items[..|items| - 1]) + items[|items| - 1].price
  }

  lemma {:induction false} ItemsTotalOfRows(t: Table, rows: seq<nat>, qty: nat, items: seq<MiscItem>)
    requires |items| == |rows|
    requires forall k :: 0 <= k < |rows| ==> items[k] == ItemOf(t, rows[k], qty)
    ensures ItemsTotal(items) == Sum(Cleaned(t, rows, FixedPriceColumn))
  {
    if rows != [] {
      var n := |rows| - 1;
      ItemsTotalOfRows(t, rows[..n], qty, items[..n]);
      assert Cleaned(t, rows, FixedPriceColumn)[..n] == Cleaned(t, rows[..n], FixedPriceColumn);
    }
  }

  /**
   * The total of a div_list is the column-H prices of its rows, quantities
   * ignored, plus exactly one surcharge.
   */
  lemma ItemsTotalOfMiscList(t: Table, rows: seq<nat>, qty: nat, items: seq<MiscItem>)
    requires |items| == |rows| + 1
    requires forall k :: 0 <= k < |rows| ==> items[k] == ItemOf(t, rows[k], qty)
    requires items[|rows|] == SurchargeItem()
    ensures ItemsTotal(items) == Sum(Cleaned(t, rows, FixedPriceColumn)) + MiscSurcharge
  {
    ItemsTotalOfRows(t, rows, qty, items[..|rows|]);
    assert items[..|items| - 1] == items[..|rows|];
  }

  // ---- Labour hours ----

  /** std_t: the interval's cell in the first row whose description mentions "Arbejd", or 0 without one. */
  function StandardHours(t: Table, ic: nat): (h: real)
    ensures h >= 0.0
    ensures FirstMention(t, LaborMarker).None? ==> h == 0.0
    ensures FirstMention(t, LaborMarker).Some? ==> h == Clean(CellAt(t, FirstMention(t, LaborMarker).value, ic))
  {
    match FirstMention(t, LaborMarker)
    case None => 0.0
    case Some(r) => Clean(CellAt(t, r, ic))
  }

  /** The hours of interval iv: what the user typed into its input, else the standard hours it starts at. */
  function HoursFor(t: Table, cols: seq<string>, iv: string, typed: map<string, real>): real
    requires iv in cols
  {
    if iv in typed then typed[iv] else StandardHours(t, ColumnIndex(cols, iv))
  }

  /** bruger_timer: one entry per interval of the history, built up one interval at a time. */
  method LaborHours(t: Table, cols: seq<string>, hist: seq<string>, typed: map<string, real>)
    returns (hours: map<string, real>)
    requires forall iv :: iv in hist ==> iv in cols
    ensures hours.Keys == set iv | iv in hist
    ensures forall iv :: iv in hist ==> hours[iv] == HoursFor(t, cols, iv, typed)
  {
    hours := map[];
    for k := 0 to |hist|
      invariant hours.Keys == set iv | iv in hist[..k]
      invariant forall iv :: iv in hist[..k] ==> hours[iv] == HoursFor(t, cols, iv, typed)
    {
      assert hist[..k + 1] == hist[..k] + [hist[k]];
      hours := hours[hist[k] := HoursFor(t, cols, hist[k], typed)];
    }
    assert hist[..|hist|] == hist;
  }

  // ---- The whole history ----

  /** The price × quantity lines of the parts of every interval of the history, in order. */
  function PartsLinesOf(t: Table, lay: Layout, hist: seq<string>): (ls: seq<seq<real>>)
    requires forall iv :: iv in hist ==> iv in lay.cols
    ensures |ls| == |hist|
  {
    seq(|hist|, k requires 0 <= k < |hist| => PartsLines(t, lay, ColumnIndex(lay.cols, hist[k])))
  }

  /** The sum of each group of lines. */
  function Sums(ls: seq<seq<real>>): (xs: seq<real>)
    ensures |xs| == |ls|
  {
    seq(|ls|, k requires 0 <= k < |ls| => Sum(ls[k]))
  }

  /** The sum of each group of lines, every line multiplied by f first. */
  function ScaledSums(ls: seq<seq<real>>, f: real): (xs: seq<real>)
    ensures |xs| == |ls|
  {
    seq(|ls|, k requires 0 <= k < |ls| => Sum(Scale(ls[k], f)))
  }

  /** c_res of every interval of the history, in order. */
  function PartsCosts(t: Table, lay: Layout, hist: seq<string>): (xs: seq<real>)
    requires forall iv :: iv in hist ==> iv in lay.cols
    ensures |xs| == |hist|
  {
    ScaledSums(PartsLinesOf(t, lay, hist), Markup(lay.markupPct))
  }

  /** c_fluid of every interval of the history, in order. */
  function FluidsCosts(t: Table, lay: Layout, hist: seq<string>): (xs: seq<real>)
    requires forall iv :: iv in hist ==> iv in lay.cols
    ensures |xs| == |hist|
  {
    seq(|hist|, k requires 0 <= k < |hist| => FluidsCost(t, lay, ColumnIndex(lay.cols, hist[k])))
  }

  /** c_div of every interval of the history, in order. */
  function MiscCosts(t: Table, cols: seq<string>, hist: seq<string>): (xs: seq<real>)
    requires forall iv :: iv in hist ==> iv in cols
    ensures |xs| == |hist|
  {
    seq(|hist|, k requires 0 <= k < |hist| => MiscCost(t, ColumnIndex(cols, hist[k])))
  }

  /** bruger_timer[i] * timepris for every interval of the history, in order. */
  function LaborCosts(hist: seq<string>, hours: map<string, real>, rate: int): (xs: seq<real>)
    requires forall iv :: iv in hist ==> iv in hours
    ensures |xs| == |hist|
  {
    seq(|hist|, k requires 0 <= k < |hist| => LaborCost(hours[hist[k]], rate))
  }

  /** bruger_timer[i] * timepris */
  function LaborCost(hours: real, rate: int): real {
    hours * rate as real
  }

  lemma SumOfPrefix(xs: seq<real>, k: nat)
    requires k < |xs|
    ensures Sum(xs[..k + 1]) == Sum(xs[..k]) + xs[k]
  {
    assert xs[..k + 1][..k] == xs[..k];
  }

  /** A sum of n terms, each at least b, is at least n * b. */
  lemma {:induction false} SumAtLeast(xs: seq<real>, b: real)
    requires forall k :: 0 <= k < |xs| ==> xs[k] >= b
    ensures Sum(xs) >= |xs| as real * b
  {
    if xs != [] {
      var n := |xs| - 1;
      SumAtLeast(xs[..n], b);
      assert |xs| as real * b == n as real * b + b;
    }
  }

  /** t_res, t_fluid, t_div and t_arb. */
  datatype Subtotals = Subtotals(parts: real, fluids: real, misc: real, labor: real)

  /**
   * The loop over the history: per interval it builds div_list, prices the
   * three tables and adds hours times rate, accumulating the four subtotals.
   */
  method Aggregate(t: Table, lay: Layout, hist: seq<string>, hours: map<string, real>) returns (s: Subtotals)
    requires forall iv :: iv in hist ==> iv in lay.cols && iv in hours
    ensures s.parts == Sum(PartsCosts(t, lay, hist))
    ensures s.fluids == Sum(FluidsCosts(t, lay, hist))
    ensures s.misc == Sum(MiscCosts(t, lay.cols, hist))
    ensures s.labor == Sum(LaborCosts(hist, hours, lay.rate))
    ensures hist == [] ==> s == Subtotals(0.0, 0.0, 0.0, 0.0)
  {
    var parts, fluids, misc, labor := PartsCosts(t, lay, hist), FluidsCosts(t, lay, hist), MiscCosts(t, lay.cols, hist), LaborCosts(hist, hours, lay.rate);
    var tRes, tFluid, tDiv, tArb := 0.0, 0.0, 0.0, 0.0;
    for k := 0 to |hist|
      invariant tRes == Sum(parts[..k]) && tFluid == Sum(fluids[..k])
      invariant tDiv == Sum(misc[..k]) && tArb == Sum(labor[..k])
    {
      var ic := ColumnIndex(lay.cols, hist[k]);
      var miscRows := SectionRows(t, ic, Misc);
      var items := MiscList(t, miscRows, lay.qty);
      ItemsTotalOfMiscList(t, miscRows, lay.qty, items);
      SumOfPrefix(parts, k);
      SumOfPrefix(fluids, k);
      SumOfPrefix(misc, k);
      SumOfPrefix(labor, k);
      var cRes := PartsCost(t, lay, ic);
      assert cRes == parts[k];
      var cFluid := FluidsCost(t, lay, ic);
      assert cFluid == fluids[k];
      var cDiv := ItemsTotal(items);
      assert cDiv == misc[k];
      var cArb := LaborCost(hours[hist[k]], lay.rate);
      assert cArb == labor[k];
      tRes := tRes + cRes;
      tFluid := tFluid + cFluid;
      tDiv := tDiv + cDiv;
      tArb := tArb + cArb;
    }
    assert parts[..|hist|] == parts && fluids[..|hist|] == fluids;
    assert misc[..|hist|] == misc && labor[..|hist|] == labor;
    s := Subtotals(tRes, tFluid, tDiv, tArb);
  }

  /** Multiplying every line by f multiplies the total of all groups by f. */
  lemma SumOfScaledSums(ls: seq<seq<real>>, f: real)
    ensures Sum(ScaledSums(ls, f)) == f * Sum(Sums(ls))
  {
    var xs, ys := ScaledSums(ls, f), Sums(ls);
    forall k | 0 <= k < |ls|
      ensures xs[k] == f * ys[k]
    {
      SumOfScale(ls[k], f);
    }
    SumOfMultiples(xs, ys, f);
  }

  /**
   * The markup scales the whole parts subtotal: t_res is 1 + avance/100
   * times the price × quantity total of the parts of the history.
   */
  lemma PartsTotalIsMarkedUp(t: Table, lay: Layout, hist: seq<string>, lines: seq<seq<real>>)
    requires forall iv :: iv in hist ==> iv in lay.cols
    requires lines == PartsLinesOf(t, lay, hist)
    ensures Sum(PartsCosts(t, lay, hist)) == Markup(lay.markupPct) * Sum(Sums(lines))
  {
    SumOfScaledSums(lines, Markup(lay.markupPct));
  }

  /**
   * Every interval of the history adds exactly one surcharge to t_div,
   * whatever its miscellaneous rows, so t_div is at least 500 per interval.
   */
  lemma MiscTotalAtLeastSurcharges(t: Table, cols: seq<string>, hist: seq<string>)
    requires forall iv :: iv in hist ==> iv in cols
    ensures Sum(MiscCosts(t, cols, hist)) >= |hist| as real * MiscSurcharge
  {
    var misc := MiscCosts(t, cols, hist);
    forall k | 0 <= k < |hist|
      ensures misc[k] >= MiscSurcharge
    {
      SumOfNonNegative(Cleaned(t, SectionRows(t, ColumnIndex(cols, hist[k]), Misc), FixedPriceColumn));
    }
    SumAtLeast(misc, MiscSurcharge);
  }

  /** With a non-negative markup factor, hours and rate, no subtotal is negative. */
  lemma SubtotalsNonNegative(t: Table, lay: Layout, hist: seq<string>, hours: map<string, real>)
    requires forall iv :: iv in hist ==> iv in lay.cols && iv in hours && hours[iv] >= 0.0
    requires lay.markupPct >= -100 && lay.rate >= 0
    ensures Sum(PartsCosts(t, lay, hist)) >= 0.0 && Sum(FluidsCosts(t, lay, hist)) >= 0.0
    ensures Sum(LaborCosts(hist, hours, lay.rate)) >= 0.0
  {
    var parts, fluids, labor := PartsCosts(t, lay, hist), FluidsCosts(t, lay, hist), LaborCosts(hist, hours, lay.rate);
    forall k | 0 <= k < |hist|
      ensures parts[k] >= 0.0 && fluids[k] >= 0.0 && labor[k] >= 0.0
    {
      IntervalCostBounds(t, lay, ColumnIndex(lay.cols, hist[k]));
      NonNegativeProduct(hours[hist[k]], lay.rate as real);
    }
    SumOfNonNegative(parts);
    SumOfNonNegative(fluids);
    SumOfNonNegative(labor);
  }

  /** cph: the total spread over the hours up to the chosen interval, 0 when that is 0 hours. */
  function CostPerHour(total: real, cutoff: nat): (r: real)
    ensures cutoff > 0 ==> r * cutoff as real == total
    ensures cutoff == 0 ==> r == 0.0
  {
    if cutoff > 0 then total / cutoff as real else 0.0
  }
}
