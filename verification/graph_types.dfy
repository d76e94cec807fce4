/** The graph shapes handed from the generator to the DOT serializer:
    styles, cells, tables, edges, clusters and the graph itself. */
module GraphTypes {
  import opened Wrappers
  import opened JsNumbers
  import opened CssClasses
  import VsTypes

  /** A cell or table style. `classes` is an insertion-ordered set. */
  datatype Style = Style(
    classes: seq<CssClass>,
    rounded: Option<bool>,
    border: Option<int>,
    icon: Option<string>,
    backgroundColor: Option<string>,
    color: Option<string>,
    fontFamily: Option<string>,
    fontSize: Option<string>,
    fontWeight: Option<string>,
    textAlign: Option<string>,
    verticalAlign: Option<string>,
    padding: Option<string>,
    margin: Option<string>)

  /** A style literal that sets only the fields the language rules use. */
  function MakeStyle(classes: seq<CssClass>, rounded: Option<bool>, border: Option<int>, icon: Option<string>): (s: Style)
    ensures s.classes == classes && s.rounded == rounded && s.border == border && s.icon == icon
  {
    Style(classes, rounded, border, icon, None, None, None, None, None, None, None, None, None)
  }

  /** Layout position of a cell among its siblings. */
  datatype CellPosition = CellPosition(row: nat, col: nat)

  /** A source coordinate `[line, character]`. */
  datatype Coord = Coord(line: nat, character: nat)

  datatype Cell = Cell(
    title: string,
    style: Style,
    children: seq<Cell>,
    position: Option<CellPosition>,
    rangeStart: Option<Coord>,
    rangeEnd: Option<Coord>)

  /** `caption` is the source's `label` (a reserved word here). */
  datatype TableSection = TableSection(id: string, caption: string, cells: seq<Cell>)

  datatype TableNode = TableNode(id: nat, caption: string, sections: seq<TableSection>, cssClass: Option<CssClass>)

  /** An edge endpoint `[fileId, line, character]`; line and character come
      from `parseInt` on a key and may be NaN. */
  datatype LocId = LocId(file: nat, line: Num, character: Num)

  datatype Edge = Edge(from: LocId, to: LocId, classes: seq<CssClass>)

  datatype Subgraph = Subgraph(title: string, nodes: seq<string>, subgraphs: seq<Subgraph>)

  datatype Graph = Graph(nodes: seq<TableNode>, edges: seq<Edge>, subgraphs: seq<Subgraph>, cssClass: Option<CssClass>)

  /** A registered file: its id, its canonical path and its symbol outline. */
  datatype FileOutline = FileOutline(id: nat, path: string, symbols: seq<VsTypes.DocumentSymbol>)
}
