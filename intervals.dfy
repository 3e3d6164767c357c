/**
 * Interval selection (app.py:75-80): the interval columns, the cutoff read
 * from the chosen label, and the history of intervals before the cutoff.
 */
module Intervals {
  import opened Wrappers
  import opened Text
  import opened Numbers
  import opened Sheet

  /** `"timer" in c.lower()` */
  predicate IsIntervalColumn(c: string) {
    Contains(LowerStr(c), HeaderWord)
  }

  /** xs is ys with some elements left out and the rest in their order. */
  predicate SubsequenceOf(xs: seq<string>, ys: seq<string>)
    decreases |ys|
  {
    xs == [] ||
    (ys != [] && if xs[0] == ys[0] then SubsequenceOf(xs[1..], ys[1..]) else SubsequenceOf(xs, ys[1..]))
  }

  /** int_kols: the columns whose lower-cased name contains "timer", in sheet order. */
  function IntervalColumns(cols: seq<string>): (r: seq<string>)
    ensures forall c :: c in r <==> c in cols && IsIntervalColumn(c)
    ensures SubsequenceOf(r, cols)
  {
    if cols == [] then []
    else
      var rest := IntervalColumns(cols[1..]);
      assert rest != [] ==> rest[0] in rest;
      if IsIntervalColumn(cols[0]) then [cols[0]] + rest else rest
  }

  /** int("".join(filter(str.isdigit, name))): None where int() raises. */
  function HourCount(name: string): Option<nat> {
    ParseInt(DigitsOf(name))
  }

  /**
   * A label made of text without digits around the decimal numeral of n,
   * such as "500 timer", has hour count n.
   */
  lemma HourCountOfLabel(p: string, n: nat, q: string)
    requires forall i :: 0 <= i < |p| ==> !IsDigit(p[i])
    requires forall i :: 0 <= i < |q| ==> !IsDigit(q[i])
    ensures HourCount(p + NatText(n) + q) == Some(n)
  {
    DigitsOfConcat(p + NatText(n), q);
    DigitsOfConcat(p, NatText(n));
    DigitsOfPlainText(p);
    DigitsOfPlainText(NatText(n));
    DigitsOfPlainText(q);
    assert DigitsOf(p + NatText(n) + q) == NatText(n);
    ParseIntOfNatText(n);
  }

  /**
   * hist_int for a cutoff: the columns whose hour count is strictly below it,
   * in their order; the first column whose digits int() cannot read fails the
   * whole list.
   */
  function History(ints: seq<string>, cutoff: nat): (r: Result<seq<string>, string>)
    ensures r.Ok? <==> forall c :: c in ints ==> HourCount(c).Some?
    ensures r.Err? ==> r.error in ints && HourCount(r.error).None?
    ensures r.Ok? ==> SubsequenceOf(r.value, ints)
    ensures r.Ok? ==> forall c :: c in r.value <==> c in ints && HourCount(c).Some? && HourCount(c).value < cutoff
  {
    if ints == [] then Ok([])
    else match HourCount(ints[0])
      case None => Err(ints[0])
      case Some(n) =>
        match History(ints[1..], cutoff)
        case Err(e) => Err(e)
        case Ok(rest) =>
          assert rest != [] ==> rest[0] in rest;
          Ok(if n < cutoff then [ints[0]] + rest else rest)
  }

  /** What the interval selection hands to the calculation. */
  datatype Selection = Selection(cutoff: nat, hist: seq<string>)

  /**
   * valgt_t and hist_int for the chosen label: the cutoff is the chosen
   * label's hour count, and the chosen interval itself is never part of the
   * history.
   */
  function SelectHistory(ints: seq<string>, chosen: string): (r: Result<Selection, string>)
    ensures r.Ok? ==> HourCount(chosen) == Some(r.value.cutoff)
    ensures r.Ok? ==> chosen !in r.value.hist
    ensures r.Ok? ==> forall c :: c in r.value.hist ==> c in ints && HourCount(c).Some? && HourCount(c).value < r.value.cutoff
    ensures r.Ok? ==> SubsequenceOf(r.value.hist, ints)
    ensures r.Ok? ==> History(ints, r.value.cutoff) == Ok(r.value.hist)
    ensures r.Err? <==> HourCount(chosen).None? || exists c :: c in ints && HourCount(c).None?
    ensures r.Err? ==> (r.error == chosen || r.error in ints) && HourCount(r.error).None?
  {
    match HourCount(chosen)
    case None => Err(chosen)
    case Some(cutoff) =>
      match History(ints, cutoff)
      case Err(e) => Err(e)
      case Ok(hist) => Ok(Selection(cutoff, hist))
  }

  /** Hour counts that go up from column to column, as the sheets list them. */
  predicate Ascending(ints: seq<string>) {
    (forall c :: c in ints ==> HourCount(c).Some?) &&
    forall i, j :: 0 <= i < j < |ints| ==> HourCount(ints[i]).value < HourCount(ints[j]).value
  }

  /**
   * On a sheet whose intervals go up, the history of the k-th interval is
   * exactly the intervals to its left.
   */
  lemma {:induction false} HistoryOfAscending(ints: seq<string>, k: nat)
    requires Ascending(ints) && k < |ints|
    ensures History(ints, HourCount(ints[k]).value) == Ok(ints[..k])
  {
    var cutoff := HourCount(ints[k]).value;
    if k == 0 {
      HistoryBelowFirst(ints, cutoff);
    } else {
      AscendingTail(ints);
      HistoryOfAscending(ints[1..], k - 1);
      assert ints[1..][k - 1] == ints[k];
      HistoryKeepsFirst(ints, cutoff);
      assert [ints[0]] + ints[1..][..k - 1] == ints[..k];
    }
  }

  lemma HistoryKeepsFirst(ints: seq<string>, cutoff: nat)
    requires ints != [] && HourCount(ints[0]).Some? && HourCount(ints[0]).value < cutoff
    requires History(ints[1..], cutoff).Ok?
    ensures History(ints, cutoff) == Ok([ints[0]] + History(ints[1..], cutoff).value)
  {
  }

  lemma AscendingTail(ints: seq<string>)
    requires Ascending(ints) && ints != []
    ensures Ascending(ints[1..])
  {
    forall i, j | 0 <= i < j < |ints[1..]|
      ensures HourCount(ints[1..][i]).value < HourCount(ints[1..][j]).value
    {
      assert ints[1..][i] == ints[i + 1] && ints[1..][j] == ints[j + 1];
    }
  }

  /** When every column of an ascending list is at or above the cutoff, the history is empty. */
  lemma {:induction false} HistoryBelowFirst(ints: seq<string>, cutoff: nat)
    requires Ascending(ints)
    requires ints != [] ==> cutoff <= HourCount(ints[0]).value
    ensures History(ints, cutoff) == Ok([])
  {
    if ints != [] {
      AscendingTail(ints);
      if |ints| > 1 {
        assert HourCount(ints[0]).value < HourCount(ints[1]).value;
      }
      HistoryBelowFirst(ints[1..], cutoff);
    }
  }

  /**
   * The row the header scan settles on names at least one interval column:
   * the cell that mentions "timer" becomes a column name, and trimming it
   * keeps the word.
   */
  lemma HeaderRowNamesAnInterval(raw: seq<seq<Cell>>, h: nat)
    requires h < |raw| && MentionsTimer(raw[h])
    ensures IntervalColumns(Columns(Reframe(raw, h))) != []
  {
    var j :| 0 <= j < |raw[h]| && ContainsIgnoreCase(CellText(raw[h][j]), HeaderWord);
    assert LowerStr(HeaderWord) == HeaderWord;
    var s := CellText(raw[h][j]);
    assert raw[h][j].Str? by {
      assert |LowerStr(s)| >= |HeaderWord|;
    }
    ContainsAfterStrip(s, HeaderWord);
    var cols := Columns(Reframe(raw, h));
    assert cols[j] == Strip(s) && IsIntervalColumn(cols[j]);
    assert cols[j] in IntervalColumns(cols);
  }
}
