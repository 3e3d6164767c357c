/**
 * Loading a sheet (app.py:59-74): the header row is found by content, the
 * column names are trimmed, and cells are looked up by position.
 */
module Sheet {
  import opened Text
  import opened Numbers

  /** The word that marks the header row and the interval columns. */
  const HeaderWord := "timer"

  /** The loaded sheet: the column names as read and the data rows below the header. */
  datatype Table = Table(header: seq<string>, rows: seq<seq<Cell>>)

  /** row.astype(str).str.contains('timer', case=False).any() */
  predicate MentionsTimer(row: seq<Cell>) {
    exists j :: 0 <= j < |row| && ContainsIgnoreCase(CellText(row[j]), HeaderWord)
  }

  /**
   * The header scan: the first raw row with a cell mentioning "timer" in any
   * letter case, or row 0 when no row does.
   */
  method FindHeaderRow(raw: seq<seq<Cell>>) returns (h: nat)
    ensures (exists i :: 0 <= i < |raw| && MentionsTimer(raw[i])) ==>
              h < |raw| && MentionsTimer(raw[h]) && forall i :: 0 <= i < h ==> !MentionsTimer(raw[i])
    ensures (forall i :: 0 <= i < |raw| ==> !MentionsTimer(raw[i])) ==> h == 0
  {
    h := 0;
    var i := 0;
    while i < |raw|
      invariant i <= |raw|
      invariant forall k :: 0 <= k < i ==> !MentionsTimer(raw[k])
    {
      if MentionsTimer(raw[i]) {
        h := i;
        break;
      }
      i := i + 1;
    }
  }

  /** The name pandas gives column j when its header cell is c. */
  function ColumnName(c: Cell, j: nat): string {
    match c
    case NA => "Unnamed: " + NatText(j)
    case Str(s) => s
  }

  /**
   * Reading the file again with header=h: row h names the columns and the
   * rows after it are the data, numbered from 0.
   */
  function Reframe(raw: seq<seq<Cell>>, h: nat): (t: Table)
    requires h < |raw|
    ensures |t.header| == |raw[h]| && t.rows == raw[h + 1..]
    ensures forall j :: 0 <= j < |raw[h]| && raw[h][j].Str? ==> t.header[j] == raw[h][j].text
    ensures forall j :: 0 <= j < |raw[h]| && raw[h][j].NA? ==> t.header[j] == "Unnamed: " + NatText(j)
  {
    Table(seq(|raw[h]|, j requires 0 <= j < |raw[h]| => ColumnName(raw[h][j], j)), raw[h + 1..])
  }

  /** df.columns = [str(c).strip() for c in df.columns] */
  function Columns(t: Table): (cols: seq<string>)
    ensures |cols| == |t.header|
    ensures forall j :: 0 <= j < |cols| ==> cols[j] == Strip(t.header[j])
  {
    seq(|t.header|, j requires 0 <= j < |t.header| => Strip(t.header[j]))
  }

  /**
   * Column j's name is its header cell with the surrounding whitespace
   * removed: a slice of the cell, everything cut off is whitespace, and the
   * name is empty or starts and ends with a non-space.
   */
  lemma ColumnNameIsTrimmed(t: Table, j: nat) returns (a: nat, b: nat)
    requires j < |t.header|
    ensures a <= b <= |t.header[j]| && Columns(t)[j] == t.header[j][a..b]
    ensures forall k :: 0 <= k < a ==> IsSpace(t.header[j][k])
    ensures forall k :: b <= k < |t.header[j]| ==> IsSpace(t.header[j][k])
    ensures Columns(t)[j] != [] ==> !IsSpace(Columns(t)[j][0]) && !IsSpace(Columns(t)[j][|Columns(t)[j]| - 1])
  {
    a, b := StripDrops(t.header[j]);
  }

  /** The cell of row r in column j; pandas pads short rows with missing values. */
  function CellAt(t: Table, r: nat, j: nat): Cell {
    if r < |t.rows| && j < |t.rows[r]| then t.rows[r][j] else NA
  }

  /** df[name]: the first column called name. */
  function ColumnIndex(cols: seq<string>, name: string): (j: nat)
    requires name in cols
    ensures j < |cols| && cols[j] == name
    ensures forall k :: 0 <= k < j ==> cols[k] != name
  {
    if cols[0] == name then 0 else 1 + ColumnIndex(cols[1..], name)
  }
}
