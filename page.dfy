/**
 * The parts of the fetched odds page the extraction reads. The HTML parser and
 * the CSS selectors are not modelled: each value below is what a selector of
 * server.js yields, already reduced to texts and attributes.
 */
module Page {
  import opened Common

  /** A `td` cell: its text, the texts of its nested elements in document order, and the text of its buttons, if it has any. */
  datatype Cell = Cell(text: string, nested: seq<string>, button: Option<string>)

  /** A `tr`: its `th` count, its `td` cells, and whether it is the first child of its parent element. */
  datatype Row = Row(headerCells: nat, cells: seq<Cell>, firstChild: bool)

  /** A `table`: the text of its header elements and its rows in document order. */
  datatype Table = Table(headerText: string, rows: seq<Row>)

  /** The first element under a container whose class mentions odds or betting, or that carries `data-odds`. */
  datatype OddsElement = OddsElement(text: string, dataOdds: Option<string>)

  /** An element whose class or test id mentions a player or betting row. */
  datatype Container = Container(nameText: Option<string>, odds: Option<OddsElement>, dataOdds: Option<string>)

  /** A `div`, `span`, `p` or `li`: its text and the text of the odds element of its closest `div`, `tr` or `li`. */
  datatype TextElement = TextElement(text: string, nearbyOdds: Option<string>)

  /**
   * The whole page: its tables, its player containers, its text elements, and
   * for each of the five title selectors the text of its first match, if any.
   */
  datatype Document = Document(
    tables: seq<Table>,
    containers: seq<Container>,
    elements: seq<TextElement>,
    titles: seq<Option<string>>)
}
