/**
 * The parts of an XML Spreadsheet 2003 workbook the conversion reads, as
 * records. Element lookup in the document tree is not modelled: each record
 * holds the attributes and child elements the conversion asks for, already
 * collected (an absent attribute is the empty string, an absent element None).
 */
module Workbook {
  import opened Wrappers
  import opened Widths

  /** The attributes of a `<Font>` element: `ss:FontName`, `x:Family`, `ss:Size`, `ss:Color`. */
  datatype FontFace = FontFace(name: string, family: string, size: nat, color: string)

  /** A `<Style>`: `ss:ID`, `ss:Parent` and its first `<Font>` descendant, if any. */
  datatype StyleDef = StyleDef(id: string, parent: string, font: Option<FontFace>)

  /** A `<Column>`: its 1-based `ss:Index` (when given), `ss:StyleID` and `ss:Width`. */
  datatype ColumnDef = ColumnDef(index: Option<nat>, styleId: string, width: Measure)

  /** A child element of a `<Cell>` (`<Data>`, `<ss:Phonetics>`, ...): its tag and text. */
  datatype CellChild = CellChild(tag: string, text: string)

  /**
   * A `<Cell>`: its 1-based `ss:Index` (when given), `ss:StyleID`, `ss:Width`, its
   * first `<Font>` descendant, its whole text content and its child elements.
   */
  datatype Cell = Cell(
    index: Option<nat>,
    styleId: string,
    width: Measure,
    font: Option<FontFace>,
    text: string,
    children: seq<CellChild>)

  /**
   * The first `<Table>` of a worksheet: `ss:StyleID`, `ss:ExpandedRowCount`,
   * `ss:ExpandedColumnCount`, `ss:DefaultColumnWidth`, its `<Column>`s and the
   * cells of each of its `<Row>`s (row 0 is the header row).
   */
  datatype Table = Table(
    styleId: string,
    rowCount: string,
    columnCount: string,
    defaultWidth: Measure,
    columns: seq<ColumnDef>,
    rows: seq<seq<Cell>>)

  /** A `<Worksheet>` and its first `<Table>`, if it has one. */
  datatype Worksheet = Worksheet(table: Option<Table>)

  /** A child element of `<DocumentProperties>`: its tag name and trimmed-later text. */
  datatype Property = Property(name: string, text: string)
}
