/** Choosing the odds table of the page (server.js, strategy 1). */
module TableScan {
  import opened Common
  import opened Text
  import opened Page

  /** The header mentions both "odds" and "player", in any case. */
  predicate IsOddsHeader(t: Table)
  {
    var h := ToLower(t.headerText);
    Contains(h, "odds") && Contains(h, "player")
  }

  /** Number of `th` and `td` cells of the table's first row. */
  function FirstRowWidth(t: Table): nat
  {
    if t.rows == [] then 0 else t.rows[0].headerCells + |t.rows[0].cells|
  }

  predicate Matches(t: Table, byHeader: bool)
  {
    if byHeader then IsOddsHeader(t) else FirstRowWidth(t) >= 6
  }

  /** Index of the first table passing the header test (or the width test). */
  function FirstMatch(tables: seq<Table>, byHeader: bool): (r: Option<nat>)
    ensures r.Some? ==> r.value < |tables| && Matches(tables[r.value], byHeader)
    ensures r.Some? ==> forall j :: 0 <= j < r.value ==> !Matches(tables[j], byHeader)
    ensures r.None? ==> forall j :: 0 <= j < |tables| ==> !Matches(tables[j], byHeader)
    decreases |tables|
  {
    if tables == [] then None
    else if Matches(tables[0], byHeader) then Some(0)
    else
      match FirstMatch(tables[1..], byHeader)
      case None => None
      case Some(k) => Some(k + 1)
  }

  /** The odds table: the first with an odds-and-player header, else the first whose first row has six or more cells. */
  function ChosenTable(tables: seq<Table>): (r: Option<nat>)
    ensures r.Some? ==> r.value < |tables|
    ensures (exists j :: 0 <= j < |tables| && IsOddsHeader(tables[j])) ==> r.Some? && IsOddsHeader(tables[r.value])
    ensures r.None? <==> forall j :: 0 <= j < |tables| ==> !IsOddsHeader(tables[j]) && FirstRowWidth(tables[j]) < 6
    ensures r.Some? && IsOddsHeader(tables[r.value]) ==> forall j :: 0 <= j < r.value ==> !IsOddsHeader(tables[j])
    ensures r.Some? && !IsOddsHeader(tables[r.value]) ==>
      && FirstRowWidth(tables[r.value]) >= 6
      && (forall j :: 0 <= j < |tables| ==> !IsOddsHeader(tables[j]))
      && (forall j :: 0 <= j < r.value ==> FirstRowWidth(tables[j]) < 6)
  {
    match FirstMatch(tables, true)
    case Some(k) => Some(k)
    case None => FirstMatch(tables, false)
  }

  /** The two `each` loops that look for the table, each stopping at its first hit. */
  method SelectTable(tables: seq<Table>) returns (r: Option<nat>)
    ensures r == ChosenTable(tables)
  {
    r := None;
    var i := 0;
    while i < |tables|
      invariant 0 <= i <= |tables|
      invariant forall j :: 0 <= j < i ==> !IsOddsHeader(tables[j])
    {
      if IsOddsHeader(tables[i]) {
        r := Some(i);
        break;
      }
      i := i + 1;
    }
    if r.None? {
      i := 0;
      while i < |tables|
        invariant 0 <= i <= |tables|
        invariant forall j :: 0 <= j < i ==> FirstRowWidth(tables[j]) < 6
      {
        if FirstRowWidth(tables[i]) >= 6 {
          r := Some(i);
          break;
        }
        i := i + 1;
      }
    }
  }

  /**
   * The rows `find('tbody tr, tr').not(':first-child')` keeps: every row
   * that is not the first child of its parent element.
   */
  function RowsNotFirstChild(rows: seq<Row>): (r: seq<Row>)
    ensures |r| <= |rows|
    ensures forall k :: 0 <= k < |r| ==> !r[k].firstChild
    decreases |rows|
  {
    if rows == [] then []
    else if rows[0].firstChild then RowsNotFirstChild(rows[1..])
    else [rows[0]] + RowsNotFirstChild(rows[1..])
  }

  /** A header row in `thead` and two player rows in `tbody`: the first player row is the first child of `tbody`. */
  const HeadedTable: Table := Table("Pos Player Total Odds", [
    Row(6, [], true),
    Row(0, seq(6, _ => Cell("", [], None)), true),
    Row(0, seq(6, _ => Cell("", [], None)), false)])

  /** The header-skipping filter as written also drops the first player row of a table with a `thead`. */
  lemma FirstChildFilterDropsAPlayerRow()
    ensures |HeadedTable.rows| == 3
    ensures |RowsNotFirstChild(HeadedTable.rows)| == 1
    ensures HeadedTable.rows[1] !in RowsNotFirstChild(HeadedTable.rows)
  {
    var rows := HeadedTable.rows;
    assert rows[1..][1..] == [rows[2]];
    assert RowsNotFirstChild(rows[2..]) == [rows[2]];
  }

  /** The rows under the header: every row of the table but its first. */
  function DataRows(t: Table): (r: seq<Row>)
    ensures |r| == if t.rows == [] then 0 else |t.rows| - 1
    ensures forall k :: 0 <= k < |r| ==> r[k] == t.rows[k + 1]
  {
    if t.rows == [] then [] else t.rows[1..]
  }

  /** Rows none of which is a first child all pass the filter. */
  lemma {:induction false} NoFirstChildKept(rows: seq<Row>)
    requires forall k :: 0 <= k < |rows| ==> !rows[k].firstChild
    ensures RowsNotFirstChild(rows) == rows
    decreases |rows|
  {
    if rows != [] {
      NoFirstChildKept(rows[1..]);
    }
  }

  /**
   * When the header row is the only first child of the table, as in a table
   * without `thead`/`tbody` sections, the filter as written keeps exactly the
   * rows under the header.
   */
  lemma FilterAgreesWithHeaderSkip(t: Table)
    requires t.rows != [] && t.rows[0].firstChild
    requires forall k :: 1 <= k < |t.rows| ==> !t.rows[k].firstChild
    ensures RowsNotFirstChild(t.rows) == DataRows(t)
  {
    var rest := t.rows[1..];
    assert forall k :: 0 <= k < |rest| ==> rest[k] == t.rows[k + 1];
    NoFirstChildKept(rest);
  }
}
