/**
 * The per-interval partition of rows (app.py:101-125): which rows of the
 * sheet are parts, fluids or miscellaneous items for one interval column.
 */
module Sections {
  import opened Wrappers
  import opened Text
  import opened Sheet

  /** The description of the row that starts the fluids section. */
  const FluidsMarker := "Væsker"
  /** The description of the row holding the standard labour hours. */
  const LaborMarker := "Arbejd"
  /** DIVERSE_SØGEORD: descriptions that make a row a miscellaneous item. */
  const MiscKeywords: seq<string> := ["Testudstyr", "D-Tech", "aircon", "Hjælpematerialer"]
  /** v_s when the sheet has no fluids marker. */
  const NoMarker: nat := 9999

  /** besk_kol, the first column. */
  function Description(t: Table, r: nat): Cell {
    CellAt(t, r, 0)
  }

  /** df[besk_kol].astype(str).str.contains(pat, case=False) for row r. */
  predicate DescriptionMentions(t: Table, r: nat, pat: string) {
    ContainsIgnoreCase(CellText(Description(t, r)), pat)
  }

  /** The first row from `from` on whose description mentions pat. */
  function FirstMentionFrom(t: Table, pat: string, from: nat): (r: Option<nat>)
    requires from <= |t.rows|
    ensures r.Some? ==> from <= r.value < |t.rows| && DescriptionMentions(t, r.value, pat)
    ensures r.Some? ==> forall j :: from <= j < r.value ==> !DescriptionMentions(t, j, pat)
    ensures r.None? ==> forall j :: from <= j < |t.rows| ==> !DescriptionMentions(t, j, pat)
    decreases |t.rows| - from
  {
    if from == |t.rows| then None
    else if DescriptionMentions(t, from, pat) then Some(from)
    else FirstMentionFrom(t, pat, from + 1)
  }

  /** The index of the first row whose description mentions pat, if any. */
  function FirstMention(t: Table, pat: string): (r: Option<nat>)
    ensures r.Some? ==> r.value < |t.rows| && DescriptionMentions(t, r.value, pat)
    ensures r.Some? ==> forall j :: 0 <= j < r.value ==> !DescriptionMentions(t, j, pat)
    ensures r.None? ==> forall j :: 0 <= j < |t.rows| ==> !DescriptionMentions(t, j, pat)
  {
    FirstMentionFrom(t, pat, 0)
  }

  /** v_s: the first "Væsker" row, or 9999 when there is none. */
  function FluidsStart(t: Table): nat {
    match FirstMention(t, FluidsMarker)
    case Some(v) => v
    case None => NoMarker
  }

  /** The mask: the interval cell, as text, is not 'nan', 'None' or ''. */
  predicate Active(t: Table, r: nat, ic: nat) {
    var s := CellText(CellAt(t, r, ic));
    s != "nan" && s != "None" && s != ""
  }

  /** div_mask: the description mentions one of the keywords, ignoring case; a missing description does not. */
  predicate IsMiscDescription(c: Cell) {
    c.Str? && exists k :: 0 <= k < |MiscKeywords| && ContainsIgnoreCase(c.text, MiscKeywords[k])
  }

  /** A description that is 'none', 'nan' or empty once stripped and lower-cased. */
  predicate BlankDescription(c: Cell) {
    var s := LowerStr(Strip(CellText(c)));
    s == "none" || s == "nan" || s == ""
  }

  datatype Section = Parts | Fluids | Misc

  /** Whether row r lands in the given table of interval column ic. */
  predicate InSection(t: Table, r: nat, ic: nat, s: Section) {
    match s
    case Misc => Active(t, r, ic) && IsMiscDescription(Description(t, r))
    case Parts => Active(t, r, ic) && !IsMiscDescription(Description(t, r)) && r < FluidsStart(t)
    case Fluids =>
      Active(t, r, ic) && !IsMiscDescription(Description(t, r)) && r > FluidsStart(t)
      && !BlankDescription(Description(t, r))
  }

  /** The rows below n that are in section s, in sheet order. */
  function RowsBelow(t: Table, ic: nat, s: Section, n: nat): (rows: seq<nat>)
    requires n <= |t.rows|
    ensures forall r: nat :: r in rows <==> r < n && InSection(t, r, ic, s)
    ensures forall i, j :: 0 <= i < j < |rows| ==> rows[i] < rows[j]
  {
    if n == 0 then []
    else
      var before := RowsBelow(t, ic, s, n - 1);
      var here := if InSection(t, n - 1, ic, s) then [n - 1] else [];
      assert forall i :: 0 <= i < |before| ==> before[i] in before;
      before + here
  }

  /** res_df, fluid_df or interval_div_items for interval column ic, as row indices. */
  function SectionRows(t: Table, ic: nat, s: Section): (rows: seq<nat>)
    ensures forall r: nat :: r in rows <==> r < |t.rows| && InSection(t, r, ic, s)
    ensures forall i, j :: 0 <= i < j < |rows| ==> rows[i] < rows[j]
  {
    RowsBelow(t, ic, s, |t.rows|)
  }

  /** The number of active rows below n. */
  function ActiveCount(t: Table, ic: nat, n: nat): nat {
    if n == 0 then 0 else ActiveCount(t, ic, n - 1) + if Active(t, n - 1, ic) then 1 else 0
  }

  /**
   * The three tables of one interval share no row, hold only active rows and
   * leave out the "Væsker" marker row.
   */
  lemma SectionsPartitionActiveRows(t: Table, ic: nat)
    ensures forall r, s1, s2 :: r in SectionRows(t, ic, s1) && r in SectionRows(t, ic, s2) ==> s1 == s2
    ensures forall r, s :: r in SectionRows(t, ic, s) ==> Active(t, r, ic)
    ensures FluidsStart(t) !in SectionRows(t, ic, Parts) && FluidsStart(t) !in SectionRows(t, ic, Fluids)
  {
  }

  /** Together the three tables of one interval hold at most as many rows as are active. */
  lemma {:induction false} SectionSizesBelow(t: Table, ic: nat, n: nat)
    requires n <= |t.rows|
    ensures |RowsBelow(t, ic, Parts, n)| + |RowsBelow(t, ic, Fluids, n)| + |RowsBelow(t, ic, Misc, n)|
            <= ActiveCount(t, ic, n)
  {
    if n > 0 {
      SectionSizesBelow(t, ic, n - 1);
    }
  }

  /**
   * Without a "Væsker" row (v_s = 9999) on a sheet of at most 9999 rows,
   * there are no fluids and every active row that is not a miscellaneous item
   * is a part.
   */
  lemma NoMarkerMeansNoFluids(t: Table, ic: nat)
    requires FirstMention(t, FluidsMarker).None? && |t.rows| <= NoMarker
    ensures SectionRows(t, ic, Fluids) == []
    ensures forall r: nat :: r in SectionRows(t, ic, Parts) <==>
              r < |t.rows| && Active(t, r, ic) && !IsMiscDescription(Description(t, r))
  {
    NoFluidsBelowMarker(t, ic, |t.rows|);
  }

  lemma {:induction false} NoFluidsBelowMarker(t: Table, ic: nat, n: nat)
    requires n <= |t.rows| && n <= FluidsStart(t) + 1
    ensures RowsBelow(t, ic, Fluids, n) == []
  {
    if n > 0 {
      NoFluidsBelowMarker(t, ic, n - 1);
      assert !InSection(t, n - 1, ic, Fluids);
    }
  }
}
