/** Turning the rows of the odds table into player records (server.js, strategy 1). */
module RowExtract {
  import opened Common
  import opened Text
  import opened Records
  import opened OddsFormat
  import opened Names
  import opened Page
  import opened TableScan

  /** Odds shown by a cell or "N/A": the button text, else the cell text, with the trend label removed. */
  predicate IsShownOdds(odds: string)
  {
    odds == "N/A" || IsOdds(odds)
  }

  /**
   * The odds of cell 5. When the cell has a button, its text alone decides:
   * it gives odds exactly when that text, with one leading trend label
   * stripped, is odds. Without a button the cell gives odds exactly when its
   * cleaned text is odds, and the label is stripped afterwards.
   */
  function CellOdds(cell: Cell): (r: string)
    ensures IsShownOdds(r)
    ensures cell.button.Some? ==> (r != "N/A" <==> IsOdds(StripTrend(CleanText(cell.button.value))))
    ensures cell.button.None? ==> (r != "N/A" <==> IsOdds(CleanText(cell.text)))
  {
    NoDigitNoOdds("N/A");
    match cell.button
    case Some(b) =>
      var t := StripTrend(CleanText(b));
      if IsOdds(t) then t else "N/A"
    case None =>
      var t := CleanText(cell.text);
      if IsOdds(t) then StripKeepsOdds(t); StripTrend(t) else "N/A"
  }

  /** The name of the row: the longest candidate of the nested texts, else the fallback from the whole cell. */
  function RowName(nameCell: Cell): string
  {
    var candidates := NameCandidates(nameCell.nested);
    if candidates != [] then FirstLongest(candidates) else FallbackName(CleanText(nameCell.text))
  }

  /** With a button, the rest of the cell plays no part in the odds. */
  lemma ButtonDecides(c1: Cell, c2: Cell)
    requires c1.button.Some? && c1.button == c2.button
    ensures CellOdds(c1) == CellOdds(c2)
  {
  }

  /** The position of the row: cell 0, or the next place number when the cell is blank or a dash. */
  function RowPosition(cell: Cell, count: nat): (r: string)
    ensures r != "" && r != "-"
    ensures CleanText(cell.text) != "" && CleanText(cell.text) != "-" ==> r == CleanText(cell.text)
    ensures CleanText(cell.text) == "" || CleanText(cell.text) == "-" ==> r == NatToString(count + 1)
  {
    var p := CleanText(cell.text);
    if p == "" || p == "-" then NatToString(count + 1) else p
  }

  /** Everything a player record of the table holds. */
  predicate IsTableRecord(p: Player)
  {
    && IsValidRowName(p.name)
    && p.position != "" && p.position != "-"
    && p.score != ""
    && IsShownOdds(p.odds)
  }

  /** The record of one row, given the number of records before it; rows under six cells or with no valid name give none. */
  function RowRecord(row: Row, count: nat): (r: Option<Player>)
    ensures r.Some? ==> |row.cells| >= 6 && IsTableRecord(r.value)
    ensures r.None? <==> |row.cells| < 6 || !IsValidRowName(RowName(row.cells[1]))
    ensures r.Some? ==> r.value.position == RowPosition(row.cells[0], count)
    ensures r.Some? ==> r.value.name == RowName(row.cells[1]) && r.value.odds == CellOdds(row.cells[5])
    ensures r.Some? ==> var s := CleanText(row.cells[2].text); r.value.score == if s == "" then "-" else s
  {
    if |row.cells| < 6 then None
    else
      var name := RowName(row.cells[1]);
      var s := CleanText(row.cells[2].text);
      var score := if s == "" then "-" else s;
      if IsValidRowName(name) then
        Some(Player(RowPosition(row.cells[0], count), name, CellOdds(row.cells[5]), score))
      else None
  }

  /** Number of rows with six or more cells. */
  function WideRows(rows: seq<Row>): (n: nat)
    ensures n <= |rows|
    decreases |rows|
  {
    if rows == [] then 0
    else WideRows(rows[..|rows| - 1]) + (if |rows[|rows| - 1].cells| >= 6 then 1 else 0)
  }

  /** The records of the rows in row order, `record` seeing how many records came before each row. */
  function Collect(rows: seq<Row>, record: (Row, nat) -> Option<Player>): (r: seq<Player>)
    ensures |r| <= |rows|
    decreases |rows|
  {
    if rows == [] then []
    else
      var prev := Collect(rows[..|rows| - 1], record);
      match record(rows[|rows| - 1], |prev|)
      case None => prev
      case Some(p) => prev + [p]
  }

  /** The records of the table's rows. */
  function RowRecords(rows: seq<Row>): seq<Player>
  {
    Collect(rows, RowRecord)
  }

  /** Only rows of six or more cells give records, and every record passes all the row tests. */
  lemma {:induction false} RowRecordsShape(rows: seq<Row>)
    ensures |RowRecords(rows)| <= WideRows(rows)
    ensures forall k :: 0 <= k < |RowRecords(rows)| ==> IsTableRecord(RowRecords(rows)[k])
    decreases |rows|
  {
    hide *;
    RowRecordsLast(rows);
    if rows != [] {
      RowRecordsShape(rows[..|rows| - 1]);
    }
  }

  /** One more row adds its record, if it has one, and counts when it has six or more cells. */
  lemma RowRecordsLast(rows: seq<Row>)
    ensures rows == [] ==> RowRecords(rows) == [] && WideRows(rows) == 0
    ensures rows != [] ==> var init := rows[..|rows| - 1]; var rec := RowRecord(rows[|rows| - 1], |RowRecords(init)|);
      RowRecords(rows) == if rec.Some? then RowRecords(init) + [rec.value] else RowRecords(init)
    ensures rows != [] ==> WideRows(rows) == WideRows(rows[..|rows| - 1]) + if |rows[|rows| - 1].cells| >= 6 then 1 else 0
  {
  }

  /** One more row only ever appends to the records. */
  lemma CollectGrow(rows: seq<Row>, record: (Row, nat) -> Option<Player>)
    requires rows != []
    ensures |Collect(rows[..|rows| - 1], record)| <= |Collect(rows, record)|
    ensures Collect(rows, record)[..|Collect(rows[..|rows| - 1], record)|] == Collect(rows[..|rows| - 1], record)
  {
  }

  /** The records of a prefix of the rows are a prefix of the records of all rows. */
  lemma {:induction false} CollectPrefix(rows: seq<Row>, record: (Row, nat) -> Option<Player>, i: nat)
    requires i <= |rows|
    ensures |Collect(rows[..i], record)| <= |Collect(rows, record)|
    ensures Collect(rows[..i], record) == Collect(rows, record)[..|Collect(rows[..i], record)|]
    decreases |rows|
  {
    if i == |rows| {
      assert rows[..i] == rows;
    } else {
      var shorter := rows[..|rows| - 1];
      assert shorter[..i] == rows[..i];
      CollectPrefix(shorter, record, i);
      CollectGrow(rows, record);
    }
  }

  /** The records of one more row. */
  lemma CollectStep(rows: seq<Row>, record: (Row, nat) -> Option<Player>, i: nat)
    requires i < |rows|
    ensures record(rows[i], |Collect(rows[..i], record)|).None? ==>
      Collect(rows[..i + 1], record) == Collect(rows[..i], record)
    ensures record(rows[i], |Collect(rows[..i], record)|).Some? ==>
      Collect(rows[..i + 1], record) == Collect(rows[..i], record) + [record(rows[i], |Collect(rows[..i], record)|).value]
  {
    var next := rows[..i + 1];
    assert next[..|next| - 1] == rows[..i];
  }

  lemma RowRecordPosition(row: Row, count: nat)
    requires |row.cells| >= 6
    requires CleanText(row.cells[0].text) == "" || CleanText(row.cells[0].text) == "-"
    requires RowRecord(row, count).Some?
    ensures RowRecord(row, count).value.position == NatToString(count + 1)
  {
  }

  /**
   * A row with a blank or dash position that yields a record is numbered by
   * its own place in the final list: the number is one more than the records
   * before it.
   */
  lemma BlankPositionIsPlace(rows: seq<Row>, i: nat)
    requires i < |rows| && |rows[i].cells| >= 6
    requires CleanText(rows[i].cells[0].text) == "" || CleanText(rows[i].cells[0].text) == "-"
    requires RowRecord(rows[i], |RowRecords(rows[..i])|).Some?
    ensures |RowRecords(rows[..i])| < |RowRecords(rows)|
    ensures RowRecords(rows)[|RowRecords(rows[..i])|].position == NatToString(|RowRecords(rows[..i])| + 1)
  {
    hide CleanText, RowRecord, NatToString;
    var count := |RowRecords(rows[..i])|;
    var p := RowRecord(rows[i], count).value;
    RowRecordPosition(rows[i], count);
    CollectStep(rows, RowRecord, i);
    var upto := RowRecords(rows[..i + 1]);
    assert upto == RowRecords(rows[..i]) + [p];
    assert upto[count] == p;
    CollectPrefix(rows, RowRecord, i + 1);
    assert RowRecords(rows)[count] == upto[count];
  }

  /** The nested-element loop gathering the name candidates of the name cell. */
  method CollectNameCandidates(nested: seq<string>) returns (all: seq<string>)
    ensures all == NameCandidates(nested)
  {
    hide CleanText, NameCandidates;
    all := [];
    CandidatesStep(nested[..0]);
    var i := 0;
    while i < |nested|
      invariant 0 <= i <= |nested|
      invariant all == NameCandidates(nested[..i])
    {
      var text := CleanText(nested[i]);
      if IsNameCandidate(text) {
        all := all + [text];
      }
      CandidatesPrefixStep(nested, i);
      i := i + 1;
    }
    assert nested[..i] == nested;
  }

  /** The body of the `rows.each` loop for one row: the record it pushes, if any. */
  method ExtractRow(row: Row, count: nat) returns (record: Option<Player>)
    ensures record == RowRecord(row, count)
  {
    hide CleanText, FallbackName, FirstLongest, IsValidRowName, CellOdds, NameCandidates;
    record := None;
    if |row.cells| >= 6 {
      var position := CleanText(row.cells[0].text);
      if position == "" || position == "-" {
        position := NatToString(count + 1);
      }
      var candidates := CollectNameCandidates(row.cells[1].nested);
      var name := if candidates != [] then FirstLongest(candidates) else FallbackName(CleanText(row.cells[1].text));
      var score := CleanText(row.cells[2].text);
      if score == "" {
        score := "-";
      }
      var odds := CellOdds(row.cells[5]);
      assert name == RowName(row.cells[1]) && position == RowPosition(row.cells[0], count);
      if IsValidRowName(name) {
        record := Some(Player(position, name, odds, score));
      }
    }
  }

  /** The `rows.each` loop of strategy 1 over the rows under the header. */
  method ExtractRows(table: Table) returns (players: seq<Player>)
    ensures players == RowRecords(DataRows(table))
  {
    var rows := DataRows(table);
    assert RowRecords(rows) == Collect(rows, RowRecord);
    hide *;
    players := [];
    var i := 0;
    while i < |rows|
      invariant 0 <= i <= |rows|
      invariant players == Collect(rows[..i], RowRecord)
    {
      var record := ExtractRow(rows[i], |players|);
      if record.Some? {
        players := players + [record.value];
      }
      CollectStep(rows, RowRecord, i);
      i := i + 1;
    }
    assert rows[..i] == rows;
  }
}
