/** What `generateDotSource` of the project-wide generator computes, written
    as functions of the registered state: the highlighted tables, the set of
    cell ids, the three kinds of edges and the directory clusters. The
    generator class proves its loops against these functions; the lemmas
    here state what the functions guarantee. */
module Generation {
  import opened Wrappers
  import opened Strings
  import opened JsNumbers
  import opened OrderedMaps
  import opened CssClasses
  import opened VsTypes
  import opened GraphTypes
  import Paths
  import Languages
  import Locations
  import Dot

  // ---------------------------------------------------------------------
  // Places of cells
  // ---------------------------------------------------------------------

  /** The place a cell answers to: its range start, else its layout
      position; a cell with neither has no place. */
  function CellPlace(cell: Cell): Option<Coord> {
    if cell.rangeStart.Some? then cell.rangeStart
    else if cell.position.Some? then Some(Coord(cell.position.value.row, cell.position.value.col))
    else None
  }

  /** `isCellAtPosition(cell, pos)`: the range start decides when there is
      one, the layout position otherwise, and a cell with neither matches
      nothing. */
  function IsCellAtPosition(cell: Cell, pos: Coord): (r: bool)
    ensures r <==> CellPlace(cell) == Some(pos)
  {
    if cell.rangeStart.Some? then
      cell.rangeStart.value.line == pos.line && cell.rangeStart.value.character == pos.character
    else if cell.position.Some? then
      cell.position.value.row == pos.line && cell.position.value.col == pos.character
    else false
  }

  /** The id `processCell` gives a cell of table `t` with a place. */
  predicate IdentifiedBy(t: nat, d: Cell, id: string) {
    CellPlace(d).Some? && id == Locations.CellId(t, CellPlace(d).value.line, CellPlace(d).value.character)
  }

  // ---------------------------------------------------------------------
  // Highlighting
  // ---------------------------------------------------------------------

  /** The class set of `cell` after the loop over `positions` in
      `highlightCells`. */
  function HighlightedClasses(cell: Cell, positions: seq<Coord>): seq<CssClass> {
    if |positions| == 0 then cell.style.classes
    else
      var before := HighlightedClasses(cell, positions[..|positions| - 1]);
      if IsCellAtPosition(cell, positions[|positions| - 1]) then AddClass(before, Highlight) else before
  }

  /** However many positions match, `Highlight` is added once, at the end,
      and only when the cell's place is among the positions. */
  lemma {:induction false} HighlightedClassesSpec(cell: Cell, positions: seq<Coord>)
    ensures HighlightedClasses(cell, positions) ==
      if Highlight !in cell.style.classes && CellPlace(cell).Some? && CellPlace(cell).value in positions
      then cell.style.classes + [Highlight]
      else cell.style.classes
  {
    if |positions| > 0 {
      var init := positions[..|positions| - 1];
      HighlightedClassesSpec(cell, init);
      assert positions == init + [positions[|positions| - 1]];
    }
  }

  function HighlightCell(cell: Cell, positions: seq<Coord>): Cell {
    cell.(style := cell.style.(classes := HighlightedClasses(cell, positions)))
  }

  function HighlightSection(section: TableSection, positions: seq<Coord>): TableSection {
    section.(cells := seq(|section.cells|, j requires 0 <= j < |section.cells| => HighlightCell(section.cells[j], positions)))
  }

  /** The table after `highlightCells(table, positions)`. */
  function HighlightTable(table: TableNode, positions: seq<Coord>): TableNode {
    table.(sections := seq(|table.sections|, i requires 0 <= i < |table.sections| => HighlightSection(table.sections[i], positions)))
  }

  /** Highlighting touches only the class sets of top-level cells: a cell
      gains `Highlight` exactly when its place is one of the positions, and
      titles, places, children and every other style field stay as they were. */
  lemma HighlightTableSpec(table: TableNode, positions: seq<Coord>)
    ensures var h := HighlightTable(table, positions);
      h.id == table.id && h.caption == table.caption && h.cssClass == table.cssClass
      && |h.sections| == |table.sections|
      && forall i | 0 <= i < |table.sections| ::
        h.sections[i].id == table.sections[i].id && h.sections[i].caption == table.sections[i].caption
        && |h.sections[i].cells| == |table.sections[i].cells|
    ensures var h := HighlightTable(table, positions);
      forall i, j | 0 <= i < |table.sections| && 0 <= j < |table.sections[i].cells| ::
        var c, c' := table.sections[i].cells[j], h.sections[i].cells[j];
        c'.title == c.title && c'.children == c.children && c'.position == c.position
        && c'.rangeStart == c.rangeStart && c'.rangeEnd == c.rangeEnd
        && c'.style == c.style.(classes := c'.style.classes)
        && c'.style.classes == (if Highlight !in c.style.classes && CellPlace(c).Some? && CellPlace(c).value in positions
                                then c.style.classes + [Highlight] else c.style.classes)
  {
    forall i, j | 0 <= i < |table.sections| && 0 <= j < |table.sections[i].cells|
      ensures HighlightedClasses(table.sections[i].cells[j], positions) ==
        (if Highlight !in table.sections[i].cells[j].style.classes && CellPlace(table.sections[i].cells[j]).Some?
            && CellPlace(table.sections[i].cells[j]).value in positions
         then table.sections[i].cells[j].style.classes + [Highlight] else table.sections[i].cells[j].style.classes)
    {
      HighlightedClassesSpec(table.sections[i].cells[j], positions);
    }
  }

  // ---------------------------------------------------------------------
  // Cell ids
  // ---------------------------------------------------------------------

  /** The ids `processCell` adds for `cell`: nothing when the cell has no
      place (its children are not visited either), otherwise its own id and
      then its children's. */
  function CellIds(t: nat, cell: Cell): set<string>
    decreases cell, 1
  {
    match CellPlace(cell)
    case None => {}
    case Some(p) => {Locations.CellId(t, p.line, p.character)} + CellsIds(t, cell.children)
  }

  function CellsIds(t: nat, cells: seq<Cell>): set<string>
    decreases cells, 0
  {
    if |cells| == 0 then {} else CellsIds(t, cells[..|cells| - 1]) + CellIds(t, cells[|cells| - 1])
  }

  /** The ids `collectCellIds(t, table, ·)` adds: section by section. */
  function SectionsIds(t: nat, sections: seq<TableSection>): set<string> {
    if |sections| == 0 then {}
    else SectionsIds(t, sections[..|sections| - 1]) + CellsIds(t, sections[|sections| - 1].cells)
  }

  /** A member of `Subtree(cells[k])` is a member of `Subtrees(cells)`. */
  lemma {:induction false} SubtreeInSubtrees(cells: seq<Cell>, k: nat, d: Cell)
    requires k < |cells| && d in Dot.Subtree(cells[k])
    ensures d in Dot.Subtrees(cells)
  {
    if k > 0 {
      SubtreeInSubtrees(cells[1..], k - 1, d);
    }
  }

  /** The cell an id of `CellIds(t, cell)` was made from. */
  lemma {:induction false} CellIdsSource(t: nat, cell: Cell, id: string) returns (d: Cell)
    requires id in CellIds(t, cell)
    ensures d in Dot.Subtree(cell) && IdentifiedBy(t, d, id)
    decreases cell, 1
  {
    var p := CellPlace(cell).value;
    if id == Locations.CellId(t, p.line, p.character) {
      d := cell;
    } else {
      var k;
      k, d := CellsIdsSource(t, cell.children, id);
      assert cell.children[k] in cell.children;
      SubtreeInSubtrees(cell.children, k, d);
    }
  }

  lemma {:induction false} CellsIdsSource(t: nat, cells: seq<Cell>, id: string) returns (k: nat, d: Cell)
    requires id in CellsIds(t, cells)
    ensures k < |cells| && d in Dot.Subtree(cells[k]) && IdentifiedBy(t, d, id)
    decreases cells, 0
  {
    var n := |cells| - 1;
    if id in CellIds(t, cells[n]) {
      k := n;
      d := CellIdsSource(t, cells[n], id);
    } else {
      k, d := CellsIdsSource(t, cells[..n], id);
      assert cells[..n][k] == cells[k];
    }
  }

  /** Every id collected for a table belongs to a cell of that table,
      however deeply nested, and names that cell's place. */
  lemma {:induction false} SectionsIdsSound(t: nat, sections: seq<TableSection>, id: string)
    requires id in SectionsIds(t, sections)
    ensures exists d | d in Dot.Subtrees(Dot.SectionCells(sections)) :: IdentifiedBy(t, d, id)
  {
    var n := |sections| - 1;
    if id in CellsIds(t, sections[n].cells) {
      var k, d := CellsIdsSource(t, sections[n].cells, id);
      var all := Dot.SectionCells(sections);
      assert sections[n].cells[k] in all;
      var k' :| 0 <= k' < |all| && all[k'] == sections[n].cells[k];
      SubtreeInSubtrees(all, k', d);
    } else {
      SectionsIdsSound(t, sections[..n], id);
      var d :| d in Dot.Subtrees(Dot.SectionCells(sections[..n])) && IdentifiedBy(t, d, id);
      var k := Dot.SubtreesMember(Dot.SectionCells(sections[..n]), d);
      var c := Dot.SectionCells(sections[..n])[k];
      var i, j := SectionCellsSource(sections[..n], k);
      assert sections[..n][i] == sections[i];
      var all := Dot.SectionCells(sections);
      assert sections[i].cells[j] in all;
      var k' :| 0 <= k' < |all| && all[k'] == c;
      SubtreeInSubtrees(all, k', d);
    }
  }

  /** The section and position a flattened cell comes from. */
  lemma {:induction false} SectionCellsSource(sections: seq<TableSection>, k: nat) returns (i: nat, j: nat)
    requires k < |Dot.SectionCells(sections)|
    ensures i < |sections| && j < |sections[i].cells|
    ensures sections[i].cells[j] == Dot.SectionCells(sections)[k]
  {
    if k < |sections[0].cells| {
      i, j := 0, k;
    } else {
      var i', j' := SectionCellsSource(sections[1..], k - |sections[0].cells|);
      i, j := i' + 1, j';
    }
  }

  /** When every cell of a subtree has a place, every one of them is
      collected: the collection is complete as well as sound. */
  lemma {:induction false} PlacedCellsCollected(t: nat, cell: Cell, d: Cell)
    requires forall e | e in Dot.Subtree(cell) :: CellPlace(e).Some?
    requires d in Dot.Subtree(cell)
    ensures exists id | id in CellIds(t, cell) :: IdentifiedBy(t, d, id)
    decreases cell, 1
  {
    var p := CellPlace(cell).value;
    if d == cell {
      assert IdentifiedBy(t, d, Locations.CellId(t, p.line, p.character));
    } else {
      assert d in Dot.Subtrees(cell.children);
      var k := Dot.SubtreesMember(cell.children, d);
      var child := cell.children[k];
      assert child in cell.children;
      forall e | e in Dot.Subtree(child) ensures CellPlace(e).Some? {
        SubtreeInSubtrees(cell.children, k, e);
      }
      PlacedCellsCollected(t, child, d);
      CellsIdsHas(t, cell.children, k);
    }
  }

  lemma {:induction false} CellsIdsHas(t: nat, cells: seq<Cell>, k: nat)
    requires k < |cells|
    ensures CellIds(t, cells[k]) <= CellsIds(t, cells)
    decreases cells, 0
  {
    var n := |cells| - 1;
    if k < n {
      CellsIdsHas(t, cells[..n], k);
      assert cells[..n][k] == cells[k];
    }
  }

  // ---------------------------------------------------------------------
  // Tables
  // ---------------------------------------------------------------------

  /** `lang.fileRepr(file)` as the generator calls it: the language
      instance's table-making method, passed as a function value. */
  type TableMaker = FileOutline -> Result<TableNode, Error>

  /** The table maker of a language instance. */
  function FileReprOf(l: Languages.Language): (repr: TableMaker)
    ensures KeepsIds(repr)
  {
    file => Languages.FileRepr(l, file)
  }

  /** A table maker that puts each file's table under the file's id. */
  ghost predicate KeepsIds(repr: TableMaker) {
    forall file: FileOutline :: repr(file).Ok? ==> repr(file).value.id == file.id
  }

  /** The table of one file: the language's table, highlighted when
      positions were recorded under the file's id. */
  function TableOf(repr: TableMaker, file: FileOutline, highlights: OMap<nat, seq<Coord>>): (r: Result<TableNode, Error>)
    ensures r.Err? <==> repr(file).Err?
    ensures r.Err? ==> r.error == repr(file).error
    ensures r.Ok? ==> r.value.id == repr(file).value.id && r.value.caption == repr(file).value.caption
  {
    match repr(file)
    case Err(e) => Err(e)
    case Ok(t) => Ok(if file.id in highlights.values then HighlightTable(t, highlights.values[file.id]) else t)
  }

  /** The tables of the first `n` registered files, in registration order,
      or the error of the first file whose table fails. */
  function Tables(repr: TableMaker, files: OMap<string, FileOutline>, highlights: OMap<nat, seq<Coord>>, n: nat)
    : (r: Result<seq<TableNode>, Error>)
    requires files.Valid() && n <= |files.keys|
    ensures r.Ok? ==> |r.value| == n
  {
    if n == 0 then Ok([])
    else
      match Tables(repr, files, highlights, n - 1)
      case Err(e) => Err(e)
      case Ok(ts) =>
        match TableOf(repr, files.At(n - 1), highlights)
        case Err(e) => Err(e)
        case Ok(t) => Ok(ts + [t])
  }

  /** The tables succeed exactly when every file's table does, and then the
      i-th table is the i-th file's. */
  lemma {:induction false} TablesSpec(repr: TableMaker, files: OMap<string, FileOutline>, highlights: OMap<nat, seq<Coord>>, n: nat)
    requires files.Valid() && n <= |files.keys|
    ensures Tables(repr, files, highlights, n).Ok? <==> forall i | 0 <= i < n :: TableOf(repr, files.At(i), highlights).Ok?
    ensures Tables(repr, files, highlights, n).Ok? ==> forall i | 0 <= i < n ::
      Tables(repr, files, highlights, n).value[i] == TableOf(repr, files.At(i), highlights).value
  {
    if n > 0 {
      TablesSpec(repr, files, highlights, n - 1);
      var t := TableOf(repr, files.At(n - 1), highlights);
      if Tables(repr, files, highlights, n - 1).Ok? && t.Ok? {
        var ts := Tables(repr, files, highlights, n - 1).value;
        assert Tables(repr, files, highlights, n).value == ts + [t.value];
      }
    }
  }

  /** Once a table fails, every longer prefix fails with the same error. */
  lemma {:induction false} TablesKeepError(repr: TableMaker, files: OMap<string, FileOutline>, highlights: OMap<nat, seq<Coord>>, i: nat, n: nat)
    requires files.Valid() && i <= n <= |files.keys|
    requires Tables(repr, files, highlights, i).Err?
    ensures Tables(repr, files, highlights, n) == Tables(repr, files, highlights, i)
    decreases n - i
  {
    if n > i {
      TablesKeepError(repr, files, highlights, i, n - 1);
    }
  }

  /** One more file extends the tables by its own table, or fails with its error. */
  lemma TablesStep(repr: TableMaker, files: OMap<string, FileOutline>, highlights: OMap<nat, seq<Coord>>, i: nat, done: seq<TableNode>)
    requires files.Valid() && i < |files.keys|
    requires Tables(repr, files, highlights, i) == Ok(done)
    ensures TableOf(repr, files.At(i), highlights).Err? ==>
      Tables(repr, files, highlights, i + 1) == Err(TableOf(repr, files.At(i), highlights).error)
    ensures TableOf(repr, files.At(i), highlights).Ok? ==>
      Tables(repr, files, highlights, i + 1) == Ok(done + [TableOf(repr, files.At(i), highlights).value])
  {
  }

  /** The cell-id set once every table is collected, each under its own id. */
  function TablesIds(tables: seq<TableNode>): set<string> {
    if |tables| == 0 then {}
    else TablesIds(tables[..|tables| - 1]) + SectionsIds(tables[|tables| - 1].id, tables[|tables| - 1].sections)
  }

  /** Collecting one more table adds exactly that table's ids. */
  lemma TablesIdsSnoc(done: seq<TableNode>, t: TableNode)
    ensures TablesIds(done + [t]) == TablesIds(done) + SectionsIds(t.id, t.sections)
  {
    assert (done + [t])[..|done|] == done;
  }

  /** Every collected id names the place of a cell of one of the tables. */
  lemma {:induction false} TablesIdsSound(tables: seq<TableNode>, id: string) returns (j: nat, d: Cell)
    requires id in TablesIds(tables)
    ensures j < |tables| && d in Dot.Subtrees(Dot.SectionCells(tables[j].sections))
    ensures IdentifiedBy(tables[j].id, d, id)
  {
    var n := |tables| - 1;
    if id in SectionsIds(tables[n].id, tables[n].sections) {
      SectionsIdsSound(tables[n].id, tables[n].sections, id);
      j := n;
      d :| d in Dot.Subtrees(Dot.SectionCells(tables[n].sections)) && IdentifiedBy(tables[n].id, d, id);
    } else {
      j, d := TablesIdsSound(tables[..n], id);
      assert tables[..n][j] == tables[j];
    }
  }

  /** An endpoint whose id was collected attaches to a port that the DOT
      text of its own file's table declares. */
  lemma EndpointHasPort(tables: seq<TableNode>, loc: LocId)
    requires Locations.LocationToId(loc) in TablesIds(tables)
    ensures exists j | 0 <= j < |tables| ::
      tables[j].id == loc.file && Contains(Dot.TableDot(tables[j]), "PORT=\"" + Dot.EndpointPort(loc) + "\"")
  {
    var j, d := TablesIdsSound(tables, Locations.LocationToId(loc));
    EndpointOfCell(loc, tables[j].id, d);
    Dot.TableDotNamesPorts(tables[j], d);
  }

  /** An endpoint whose id is a cell's id is at that cell's table and port. */
  lemma EndpointOfCell(loc: LocId, t: nat, d: Cell)
    requires IdentifiedBy(t, d, Locations.LocationToId(loc))
    ensures loc.file == t && Dot.Port(d) == Dot.EndpointPort(loc)
  {
    var p := CellPlace(d).value;
    Locations.LocationToIdMatchesCell(loc, t, p.line, p.character);
    assert NumToString(Int(p.line)) == NatToString(p.line);
    assert NumToString(Int(p.character)) == NatToString(p.character);
  }

  // ---------------------------------------------------------------------
  // Edges
  // ---------------------------------------------------------------------

  /** A resolved endpoint whose id is in the collected set. */
  predicate Attached(loc: Option<LocId>, cellIds: set<string>) {
    loc.Some? && Locations.LocationToId(loc.value) in cellIds
  }

  /** The endpoint a stored key resolves to. The path read back from a key
      holds no colon, so it is never decoded and the lookup never fails. */
  function KeyLocation(key: string, files: OMap<string, FileOutline>): (r: Option<LocId>)
    ensures var loc := Locations.ParseKey(key);
      (r.Some? <==> loc.path in files.values)
      && (r.Some? ==> r.value == LocId(files.values[loc.path].id, loc.line, loc.character))
  {
    Locations.ParsedPathIsPlain(key);
    Locations.LocationId(Locations.ParseKey(key), files).value
  }

  /** The lists `f` gives for the elements of `xs`, concatenated in order. */
  function FlatMap<T, U>(xs: seq<T>, f: T -> seq<U>): seq<U> {
    if |xs| == 0 then [] else FlatMap(xs[..|xs| - 1], f) + f(xs[|xs| - 1])
  }

  /** An element of the concatenation comes from one of the lists, and every
      element of every list is in it. */
  lemma {:induction false} FlatMapMembers<T, U>(xs: seq<T>, f: T -> seq<U>, u: U)
    ensures u in FlatMap(xs, f) <==> exists k | 0 <= k < |xs| :: u in f(xs[k])
  {
    if |xs| > 0 {
      var n := |xs| - 1;
      FlatMapMembers(xs[..n], f, u);
      assert forall k | 0 <= k < n :: xs[..n][k] == xs[k];
    }
  }

  /** The edges from the callers in `calls` to `to`, one per caller that
      resolves to a collected cell, in order. */
  function CallerEdges(calls: seq<IncomingCall>, to: LocId, files: OMap<string, FileOutline>, cellIds: set<string>): seq<Edge> {
    FlatMap(calls, call => CallerEdge(call, to, files, cellIds))
  }

  /** The edge from one caller, when it resolves to a collected cell. */
  function CallerEdge(call: IncomingCall, to: LocId, files: OMap<string, FileOutline>, cellIds: set<string>): seq<Edge> {
    var from := Locations.CallItemToLocationId(call.from, files);
    if Attached(from, cellIds) then [Edge(from.value, to, [])] else []
  }

  /** The edges of one `incomingCalls` entry: none unless the key's own
      location is a collected cell. */
  function IncomingEdgesOf(key: string, calls: seq<IncomingCall>, files: OMap<string, FileOutline>, cellIds: set<string>): seq<Edge> {
    var to := KeyLocation(key, files);
    if Attached(to, cellIds) then CallerEdges(calls, to.value, files, cellIds) else []
  }

  /** The edges of the first `n` entries of `incomingCalls`. */
  function IncomingEdges(incoming: OMap<string, seq<IncomingCall>>, n: nat, files: OMap<string, FileOutline>, cellIds: set<string>): seq<Edge>
    requires incoming.Valid() && n <= |incoming.keys|
  {
    if n == 0 then []
    else IncomingEdges(incoming, n - 1, files, cellIds) + IncomingEdgesOf(incoming.keys[n - 1], incoming.At(n - 1), files, cellIds)
  }

  /** The edges from `from` to the callees in `calls`. */
  function CalleeEdges(calls: seq<OutgoingCall>, from: LocId, files: OMap<string, FileOutline>, cellIds: set<string>): seq<Edge> {
    FlatMap(calls, call => CalleeEdge(call, from, files, cellIds))
  }

  /** The edge to one callee, when it resolves to a collected cell. */
  function CalleeEdge(call: OutgoingCall, from: LocId, files: OMap<string, FileOutline>, cellIds: set<string>): seq<Edge> {
    var to := Locations.CallItemToLocationId(call.to, files);
    if Attached(to, cellIds) then [Edge(from, to.value, [])] else []
  }

  function OutgoingEdgesOf(key: string, calls: seq<OutgoingCall>, files: OMap<string, FileOutline>, cellIds: set<string>): seq<Edge> {
    var from := KeyLocation(key, files);
    if Attached(from, cellIds) then CalleeEdges(calls, from.value, files, cellIds) else []
  }

  function OutgoingEdges(outgoing: OMap<string, seq<OutgoingCall>>, n: nat, files: OMap<string, FileOutline>, cellIds: set<string>): seq<Edge>
    requires outgoing.Valid() && n <= |outgoing.keys|
  {
    if n == 0 then []
    else OutgoingEdges(outgoing, n - 1, files, cellIds) + OutgoingEdgesOf(outgoing.keys[n - 1], outgoing.At(n - 1), files, cellIds)
  }

  /** The location an implementation resolves to: its URI's text rendering
      at the start of its range, through the decoding lookup, which fails on
      a malformed `file:` URI. */
  function ImplementerLocation(loc: Location, files: OMap<string, FileOutline>): Result<Option<LocId>, Error> {
    Locations.LocationId(Locations.SymbolLocation(loc.uri.text, Int(loc.range.start.line), Int(loc.range.start.character)), files)
  }

  /** The edges from the implementations in `locs` to `to`, each carrying
      the one class `Impl`; the first lookup that fails fails them all. */
  function ImplementerEdges(locs: seq<Location>, to: LocId, files: OMap<string, FileOutline>, cellIds: set<string>): Result<seq<Edge>, Error> {
    if |locs| == 0 then Ok([])
    else
      match ImplementerEdges(locs[..|locs| - 1], to, files, cellIds)
      case Err(e) => Err(e)
      case Ok(es) =>
        match ImplementerLocation(locs[|locs| - 1], files)
        case Err(e) => Err(e)
        case Ok(from) => Ok(es + if Attached(from, cellIds) then [Edge(from.value, to, [CssClass.Impl])] else [])
  }

  function ImplEdgesOf(key: string, locs: seq<Location>, files: OMap<string, FileOutline>, cellIds: set<string>): Result<seq<Edge>, Error> {
    var to := KeyLocation(key, files);
    if Attached(to, cellIds) then ImplementerEdges(locs, to.value, files, cellIds) else Ok([])
  }

  function ImplEdges(interfaces: OMap<string, seq<Location>>, n: nat, files: OMap<string, FileOutline>, cellIds: set<string>): Result<seq<Edge>, Error>
    requires interfaces.Valid() && n <= |interfaces.keys|
  {
    if n == 0 then Ok([])
    else
      match ImplEdges(interfaces, n - 1, files, cellIds)
      case Err(e) => Err(e)
      case Ok(es) =>
        match ImplEdgesOf(interfaces.keys[n - 1], interfaces.At(n - 1), files, cellIds)
        case Err(e) => Err(e)
        case Ok(more) => Ok(es + more)
  }

  /** A failed implementation lookup fails the rest of its entry. */
  lemma {:induction false} ImplementerEdgesKeepError(locs: seq<Location>, to: LocId, files: OMap<string, FileOutline>, cellIds: set<string>, j: nat)
    requires j <= |locs|
    requires ImplementerEdges(locs[..j], to, files, cellIds).Err?
    ensures ImplementerEdges(locs, to, files, cellIds) == ImplementerEdges(locs[..j], to, files, cellIds)
    decreases |locs| - j
  {
    if j < |locs| {
      assert locs[..|locs| - 1][..j] == locs[..j];
      ImplementerEdgesKeepError(locs[..|locs| - 1], to, files, cellIds, j);
    } else {
      assert locs[..j] == locs;
    }
  }

  /** A failed entry fails every longer prefix of `interfaces` with its error. */
  lemma {:induction false} ImplEdgesKeepError(interfaces: OMap<string, seq<Location>>, i: nat, n: nat, files: OMap<string, FileOutline>, cellIds: set<string>)
    requires interfaces.Valid() && i <= n <= |interfaces.keys|
    requires ImplEdges(interfaces, i, files, cellIds).Err?
    ensures ImplEdges(interfaces, n, files, cellIds) == ImplEdges(interfaces, i, files, cellIds)
    decreases n - i
  {
    if n > i {
      ImplEdgesKeepError(interfaces, i, n - 1, files, cellIds);
    }
  }

  /** Both ends name collected cells, and the edge carries `classes`. */
  predicate SoundEdge(e: Edge, cellIds: set<string>, classes: seq<CssClass>) {
    Locations.LocationToId(e.from) in cellIds && Locations.LocationToId(e.to) in cellIds && e.classes == classes
  }

  /** An edge to `to` is drawn for exactly the callers that resolve to
      collected cells. */
  lemma CallerEdgesSpec(calls: seq<IncomingCall>, to: LocId, files: OMap<string, FileOutline>, cellIds: set<string>, e: Edge)
    ensures e in CallerEdges(calls, to, files, cellIds) <==>
      exists k | 0 <= k < |calls| ::
        Attached(Locations.CallItemToLocationId(calls[k].from, files), cellIds)
        && e == Edge(Locations.CallItemToLocationId(calls[k].from, files).value, to, [])
  {
    FlatMapMembers(calls, call => CallerEdge(call, to, files, cellIds), e);
  }

  /** An edge from `from` is drawn for exactly the callees that resolve to
      collected cells. */
  lemma CalleeEdgesSpec(calls: seq<OutgoingCall>, from: LocId, files: OMap<string, FileOutline>, cellIds: set<string>, e: Edge)
    ensures e in CalleeEdges(calls, from, files, cellIds) <==>
      exists k | 0 <= k < |calls| ::
        Attached(Locations.CallItemToLocationId(calls[k].to, files), cellIds)
        && e == Edge(from, Locations.CallItemToLocationId(calls[k].to, files).value, [])
  {
    FlatMapMembers(calls, call => CalleeEdge(call, from, files, cellIds), e);
  }

  lemma {:induction false} ImplementerEdgesSound(locs: seq<Location>, to: LocId, files: OMap<string, FileOutline>, cellIds: set<string>)
    requires Locations.LocationToId(to) in cellIds
    requires ImplementerEdges(locs, to, files, cellIds).Ok?
    ensures forall e | e in ImplementerEdges(locs, to, files, cellIds).value :: SoundEdge(e, cellIds, [CssClass.Impl]) && e.to == to
  {
    if |locs| > 0 {
      ImplementerEdgesSound(locs[..|locs| - 1], to, files, cellIds);
    }
  }

  lemma {:induction false} CallerEdgesSound(calls: seq<IncomingCall>, to: LocId, files: OMap<string, FileOutline>, cellIds: set<string>)
    requires Locations.LocationToId(to) in cellIds
    ensures forall e | e in CallerEdges(calls, to, files, cellIds) :: SoundEdge(e, cellIds, []) && e.to == to
  {
    if |calls| > 0 {
      CallerEdgesSound(calls[..|calls| - 1], to, files, cellIds);
    }
  }

  lemma {:induction false} CalleeEdgesSound(calls: seq<OutgoingCall>, from: LocId, files: OMap<string, FileOutline>, cellIds: set<string>)
    requires Locations.LocationToId(from) in cellIds
    ensures forall e | e in CalleeEdges(calls, from, files, cellIds) :: SoundEdge(e, cellIds, []) && e.from == from
  {
    if |calls| > 0 {
      CalleeEdgesSound(calls[..|calls| - 1], from, files, cellIds);
    }
  }

  /** Every call edge joins two collected cells and carries no class. */
  lemma {:induction false} IncomingEdgesSound(incoming: OMap<string, seq<IncomingCall>>, n: nat, files: OMap<string, FileOutline>, cellIds: set<string>)
    requires incoming.Valid() && n <= |incoming.keys|
    ensures forall e | e in IncomingEdges(incoming, n, files, cellIds) :: SoundEdge(e, cellIds, [])
  {
    if n > 0 {
      IncomingEdgesSound(incoming, n - 1, files, cellIds);
      var key, calls := incoming.keys[n - 1], incoming.At(n - 1);
      var more := IncomingEdgesOf(key, calls, files, cellIds);
      assert IncomingEdges(incoming, n, files, cellIds) == IncomingEdges(incoming, n - 1, files, cellIds) + more;
      var to := KeyLocation(key, files);
      if Attached(to, cellIds) {
        CallerEdgesSound(calls, to.value, files, cellIds);
      } else {
        assert more == [];
      }
    }
  }

  lemma {:induction false} OutgoingEdgesSound(outgoing: OMap<string, seq<OutgoingCall>>, n: nat, files: OMap<string, FileOutline>, cellIds: set<string>)
    requires outgoing.Valid() && n <= |outgoing.keys|
    ensures forall e | e in OutgoingEdges(outgoing, n, files, cellIds) :: SoundEdge(e, cellIds, [])
  {
    if n > 0 {
      OutgoingEdgesSound(outgoing, n - 1, files, cellIds);
      var key, calls := outgoing.keys[n - 1], outgoing.At(n - 1);
      var more := OutgoingEdgesOf(key, calls, files, cellIds);
      assert OutgoingEdges(outgoing, n, files, cellIds) == OutgoingEdges(outgoing, n - 1, files, cellIds) + more;
      var from := KeyLocation(key, files);
      if Attached(from, cellIds) {
        CalleeEdgesSound(calls, from.value, files, cellIds);
      } else {
        assert more == [];
      }
    }
  }

  /** Every implementation edge joins two collected cells and carries
      exactly the class `Impl`. */
  lemma {:induction false} ImplEdgesSound(interfaces: OMap<string, seq<Location>>, n: nat, files: OMap<string, FileOutline>, cellIds: set<string>)
    requires interfaces.Valid() && n <= |interfaces.keys|
    requires ImplEdges(interfaces, n, files, cellIds).Ok?
    ensures forall e | e in ImplEdges(interfaces, n, files, cellIds).value :: SoundEdge(e, cellIds, [CssClass.Impl])
  {
    if n > 0 {
      ImplEdgesSound(interfaces, n - 1, files, cellIds);
      var key, locs := interfaces.keys[n - 1], interfaces.At(n - 1);
      var to := KeyLocation(key, files);
      if Attached(to, cellIds) {
        ImplementerEdgesSound(locs, to.value, files, cellIds);
      }
    }
  }

  // ---------------------------------------------------------------------
  // Clusters
  //
  // The clustering is written over the `path` functions it calls (see
  // `PathOps`); the lemmas assume only the properties of them they name.
  // ---------------------------------------------------------------------

  /** `path.normalize(path.dirname(p))`: the directory a file is grouped under. */
  function FileDir(p: string): string {
    Paths.Normalize(Paths.Dirname(p))
  }

  /** A registered file as the grouping loop sees it: its directory and its id. */
  datatype Entry = Entry(dir: string, id: nat)

  /** The files in registration order, each with its directory. */
  function Entries(files: OMap<string, FileOutline>): (r: seq<Entry>)
    requires files.Valid()
    ensures |r| == |files.keys|
    ensures forall i | 0 <= i < |r| :: r[i] == Entry(FileDir(files.At(i).path), files.At(i).id)
  {
    seq(|files.keys|, i requires 0 <= i < |files.keys| => Entry(FileDir(files.At(i).path), files.At(i).id))
  }

  /** A prefix one longer is the prefix and the next element. */
  lemma TakeOneMore<T>(s: seq<T>, i: nat)
    requires i < |s|
    ensures s[..i + 1] == s[..i] + [s[i]]
  {
  }

  /** The `dirMap` after the given entries: each directory, in order of
      first appearance, with the ids of its files in registration order. The
      ids are kept as numbers here and printed by `Labels` when the cluster
      is made; the source prints them as it groups them, to the same text. */
  function DirGroups(entries: seq<Entry>): OMap<string, seq<nat>> {
    if |entries| == 0 then Empty()
    else
      var groups := DirGroups(entries[..|entries| - 1]);
      var e := entries[|entries| - 1];
      match groups.Get(e.dir)
      case None => groups.Put(e.dir, [e.id])
      case Some(ids) => groups.Put(e.dir, ids + [e.id])
  }

  /** The grouping is a well-formed ordered map. */
  lemma {:induction false} DirGroupsValid(entries: seq<Entry>)
    ensures DirGroups(entries).Valid()
  {
    if |entries| > 0 {
      DirGroupsValid(entries[..|entries| - 1]);
    }
  }

  /** `file.id.toString()` for each id of a group. */
  function Labels(ids: seq<nat>): (r: seq<string>)
    ensures |r| == |ids| && forall k | 0 <= k < |ids| :: r[k] == NatToString(ids[k])
  {
    seq(|ids|, k requires 0 <= k < |ids| => NatToString(ids[k]))
  }

  /** Every file is listed under its own directory. */
  lemma {:induction false} DirGroupsComplete(entries: seq<Entry>, i: nat)
    requires i < |entries|
    ensures entries[i].dir in DirGroups(entries).values
    ensures entries[i].id in DirGroups(entries).values[entries[i].dir]
  {
    var n := |entries|;
    var groups := DirGroups(entries[..n - 1]);
    var r := DirGroups(entries);
    var dir := entries[i].dir;
    if i < n - 1 {
      DirGroupsComplete(entries[..n - 1], i);
      if dir == entries[n - 1].dir {
        assert r.values[dir] == groups.values[dir] + [entries[n - 1].id];
      }
    } else {
      assert r.values[dir][|r.values[dir]| - 1] == entries[i].id;
    }
  }

  /** Every id listed under a directory is a file of that directory. */
  lemma {:induction false} DirGroupsSound(entries: seq<Entry>)
    ensures forall dir, k | dir in DirGroups(entries).values && 0 <= k < |DirGroups(entries).values[dir]| ::
      Entry(dir, DirGroups(entries).values[dir][k]) in entries
  {
    var n := |entries|;
    if n > 0 {
      DirGroupsSound(entries[..n - 1]);
      var groups := DirGroups(entries[..n - 1]);
      var r := DirGroups(entries);
      var last := entries[n - 1];
      assert entries == entries[..n - 1] + [last];
      forall dir, k | dir in r.values && 0 <= k < |r.values[dir]|
        ensures Entry(dir, r.values[dir][k]) in entries
      {
        if dir == last.dir && k == |r.values[dir]| - 1 {
          assert Entry(dir, r.values[dir][k]) == last;
        } else {
          assert dir in groups.values && k < |groups.values[dir]| && r.values[dir][k] == groups.values[dir][k];
          assert Entry(dir, groups.values[dir][k]) in entries[..n - 1];
        }
      }
    }
  }

  /** No directory is listed without a file. */
  lemma {:induction false} DirGroupsNonEmpty(entries: seq<Entry>, dir: string)
    requires dir in DirGroups(entries).values
    ensures |DirGroups(entries).values[dir]| > 0
  {
    var n := |entries|;
    if n > 0 && dir != entries[n - 1].dir {
      DirGroupsNonEmpty(entries[..n - 1], dir);
    }
  }

  /** The two `path` functions the clustering uses. The clustering is
      written over them; the generator passes `NodePath`. */
  datatype PathOps = PathOps(normalize: string -> string, basename: string -> string)

  /** Node's `path.normalize` and `path.basename`. */
  const NodePath := PathOps(Paths.Normalize, Paths.Basename)

  /** `path.normalize(p).replace(/\\/g, '/')` */
  function Slashed(path: PathOps, p: string): (r: string)
    ensures |r| == |path.normalize(p)|
    ensures forall i | 0 <= i < |r| :: r[i] == if path.normalize(p)[i] == '\\' then '/' else path.normalize(p)[i]
  {
    ReplaceAllOneForOne(path.normalize(p), '\\', "/");
    ReplaceAll(path.normalize(p), '\\', "/")
  }

  /** Whether the cluster titled `title` is a proper directory prefix of `dir`. */
  predicate Encloses(path: PathOps, dir: string, title: string) {
    StartsWith(dir, Slashed(path, title) + "/")
  }

  /** The state of the ancestor search after the first `n` top-level
      clusters: the chosen cluster and the prefix it matched. */
  datatype Scan = Scan(ancestor: Option<nat>, longest: string)

  function AncestorScan(path: PathOps, dir: string, subgraphs: seq<Subgraph>, n: nat): (r: Scan)
    requires n <= |subgraphs|
    ensures r.ancestor.None? ==> r.longest == ""
    ensures r.ancestor.Some? ==>
      (r.ancestor.value < n && r.longest == Slashed(path, subgraphs[r.ancestor.value].title)
       && Encloses(path, dir, subgraphs[r.ancestor.value].title))
  {
    if n == 0 then Scan(None, "")
    else
      var before := AncestorScan(path, dir, subgraphs, n - 1);
      var title := Slashed(path, subgraphs[n - 1].title);
      if StartsWith(dir, title + "/") && |title| > |before.longest| then Scan(Some(n - 1), title) else before
  }

  /** The search picks the longest enclosing title, the first one among
      equally long titles, and finds one whenever any title encloses. */
  lemma {:induction false} AncestorScanLongest(path: PathOps, dir: string, subgraphs: seq<Subgraph>, n: nat)
    requires forall p :: path.normalize(p) != ""
    requires n <= |subgraphs|
    ensures var r := AncestorScan(path, dir, subgraphs, n);
      forall i | 0 <= i < n && Encloses(path, dir, subgraphs[i].title) ::
        r.ancestor.Some? && |Slashed(path, subgraphs[i].title)| <= |r.longest|
        && (i < r.ancestor.value ==> |Slashed(path, subgraphs[i].title)| < |r.longest|)
  {
    if n > 0 {
      AncestorScanLongest(path, dir, subgraphs, n - 1);
      var before := AncestorScan(path, dir, subgraphs, n - 1);
      var title := Slashed(path, subgraphs[n - 1].title);
      assert |title| > 0;
      if StartsWith(dir, title + "/") && |title| > |before.longest| {
        assert AncestorScan(path, dir, subgraphs, n) == Scan(Some(n - 1), title);
      } else {
        assert AncestorScan(path, dir, subgraphs, n) == before;
      }
    }
  }

  /** `addSubgraphExact(dir, nodes, subgraphs)`: the cluster a directory
      becomes, nested under its longest enclosing top-level cluster when
      there is one. */
  function AddSubgraph(path: PathOps, dir: string, nodes: seq<string>, subgraphs: seq<Subgraph>): seq<Subgraph> {
    var normalized := Slashed(path, dir);
    var scan := AncestorScan(path, normalized, subgraphs, |subgraphs|);
    match scan.ancestor
    case None => subgraphs + [Subgraph(path.basename(dir), nodes, [])]
    case Some(i) =>
      var child := Subgraph(path.basename(normalized[|scan.longest| + 1..]), nodes, []);
      subgraphs[i := subgraphs[i].(subgraphs := subgraphs[i].subgraphs + [child])]
  }

  /** The number of clusters at every depth. */
  function ClusterCount(subgraphs: seq<Subgraph>): nat {
    if |subgraphs| == 0 then 0
    else ClusterCount(subgraphs[..|subgraphs| - 1]) + 1 + ClusterCount(subgraphs[|subgraphs| - 1].subgraphs)
  }

  lemma {:induction false} ClusterCountAppend(a: seq<Subgraph>, b: seq<Subgraph>)
    ensures ClusterCount(a + b) == ClusterCount(a) + ClusterCount(b)
    decreases |b|
  {
    if |b| > 0 {
      var n := |b| - 1;
      ClusterCountAppend(a, b[..n]);
      assert (a + b)[..|a + b| - 1] == a + b[..n];
      assert (a + b)[|a + b| - 1] == b[n];
    } else {
      assert a + b == a;
    }
  }

  lemma ClusterCountReplace(subgraphs: seq<Subgraph>, i: nat, g: Subgraph)
    requires i < |subgraphs|
    ensures ClusterCount(subgraphs[i := g]) + ClusterCount(subgraphs[i].subgraphs)
      == ClusterCount(subgraphs) + ClusterCount(g.subgraphs)
  {
    var a, b := subgraphs[..i], subgraphs[i + 1..];
    assert subgraphs == a + [subgraphs[i]] + b;
    assert subgraphs[i := g] == a + [g] + b;
    ClusterCountAppend(a + [subgraphs[i]], b);
    ClusterCountAppend(a, [subgraphs[i]]);
    ClusterCountAppend(a + [g], b);
    ClusterCountAppend(a, [g]);
    assert [g][..0] == [] && [subgraphs[i]][..0] == [];
  }

  /** Adding a directory adds exactly one cluster, at whatever depth. */
  lemma AddSubgraphCount(path: PathOps, dir: string, nodes: seq<string>, subgraphs: seq<Subgraph>)
    ensures ClusterCount(AddSubgraph(path, dir, nodes, subgraphs)) == ClusterCount(subgraphs) + 1
  {
    var normalized := Slashed(path, dir);
    var scan := AncestorScan(path, normalized, subgraphs, |subgraphs|);
    match scan.ancestor
    case None =>
      var g := Subgraph(path.basename(dir), nodes, []);
      ClusterCountAppend(subgraphs, [g]);
      assert [g][..0] == [];
    case Some(i) =>
      var child := Subgraph(path.basename(normalized[|scan.longest| + 1..]), nodes, []);
      var g := subgraphs[i].(subgraphs := subgraphs[i].subgraphs + [child]);
      ClusterCountReplace(subgraphs, i, g);
      ClusterCountAppend(subgraphs[i].subgraphs, [child]);
      assert [child][..0] == [];
  }

  /** When no top-level title encloses the directory, it becomes a new
      top-level cluster titled by its basename. */
  lemma AddSubgraphTopLevel(path: PathOps, dir: string, nodes: seq<string>, subgraphs: seq<Subgraph>)
    requires forall i | 0 <= i < |subgraphs| :: !Encloses(path, Slashed(path, dir), subgraphs[i].title)
    ensures AddSubgraph(path, dir, nodes, subgraphs) == subgraphs + [Subgraph(path.basename(dir), nodes, [])]
  {
  }

  /** When some top-level title encloses the directory, it becomes a child
      of the longest enclosing one (the first among equally long ones),
      titled by the basename of the rest of the path. */
  lemma AddSubgraphNested(path: PathOps, dir: string, nodes: seq<string>, subgraphs: seq<Subgraph>, j: nat) returns (i: nat)
    requires forall p :: path.normalize(p) != ""
    requires j < |subgraphs| && Encloses(path, Slashed(path, dir), subgraphs[j].title)
    ensures i < |subgraphs| && Encloses(path, Slashed(path, dir), subgraphs[i].title)
    ensures forall k | 0 <= k < |subgraphs| && Encloses(path, Slashed(path, dir), subgraphs[k].title) ::
      |Slashed(path, subgraphs[k].title)| <= |Slashed(path, subgraphs[i].title)|
      && (k < i ==> |Slashed(path, subgraphs[k].title)| < |Slashed(path, subgraphs[i].title)|)
    ensures AddSubgraph(path, dir, nodes, subgraphs) == subgraphs[i := subgraphs[i].(subgraphs := subgraphs[i].subgraphs
      + [Subgraph(path.basename(Slashed(path, dir)[|Slashed(path, subgraphs[i].title)| + 1..]), nodes, [])])]
  {
    var normalized := Slashed(path, dir);
    var scan := AncestorScan(path, normalized, subgraphs, |subgraphs|);
    AncestorScanLongest(path, normalized, subgraphs, |subgraphs|);
    i := scan.ancestor.value;
  }

  /** The directories `generateSubgraphs` skips. */
  predicate Skipped(root: string, dir: string) {
    dir == "/" || dir == "." || dir == root
  }

  /** The clusters after the first `n` directories of the map. */
  function ClustersUpTo(path: PathOps, root: string, groups: OMap<string, seq<nat>>, n: nat): seq<Subgraph>
    requires groups.Valid() && n <= |groups.keys|
  {
    if n == 0 then []
    else
      var subgraphs := ClustersUpTo(path, root, groups, n - 1);
      var dir := groups.keys[n - 1];
      if Skipped(root, dir) then subgraphs else AddSubgraph(path, dir, Labels(groups.At(n - 1)), subgraphs)
  }

  /** One more directory leaves the clusters as they are or adds its own. */
  lemma ClustersUpToStep(path: PathOps, root: string, groups: OMap<string, seq<nat>>, k: nat, before: seq<Subgraph>, after: seq<Subgraph>)
    requires groups.Valid() && k < |groups.keys|
    requires before == ClustersUpTo(path, root, groups, k)
    requires Skipped(root, groups.keys[k]) ==> after == before
    requires !Skipped(root, groups.keys[k]) ==> after == AddSubgraph(path, groups.keys[k], Labels(groups.At(k)), before)
    ensures after == ClustersUpTo(path, root, groups, k + 1)
  {
  }

  /** `generateSubgraphs()` */
  function Clusters(root: string, files: OMap<string, FileOutline>): seq<Subgraph>
    requires files.Valid()
  {
    var groups := DirGroups(Entries(files));
    DirGroupsValid(Entries(files));
    ClustersUpTo(NodePath, root, groups, |groups.keys|)
  }

  /** How many of `dirs` are not skipped. */
  function KeptDirs(root: string, dirs: seq<string>): nat {
    if |dirs| == 0 then 0
    else KeptDirs(root, dirs[..|dirs| - 1]) + if Skipped(root, dirs[|dirs| - 1]) then 0 else 1
  }

  /** Each directory that is not skipped yields exactly one cluster. */
  lemma {:induction false} ClustersCount(path: PathOps, root: string, groups: OMap<string, seq<nat>>, n: nat)
    requires groups.Valid() && n <= |groups.keys|
    ensures ClusterCount(ClustersUpTo(path, root, groups, n)) == KeptDirs(root, groups.keys[..n])
  {
    if n > 0 {
      ClustersCount(path, root, groups, n - 1);
      KeptDirsStep(root, groups.keys, n);
      ClustersUpToCount(path, root, groups, n - 1);
    }
  }

  /** The clusters after one more directory number one more unless it is skipped. */
  lemma ClustersUpToCount(path: PathOps, root: string, groups: OMap<string, seq<nat>>, k: nat)
    requires groups.Valid() && k < |groups.keys|
    ensures ClusterCount(ClustersUpTo(path, root, groups, k + 1))
      == ClusterCount(ClustersUpTo(path, root, groups, k)) + if Skipped(root, groups.keys[k]) then 0 else 1
  {
    var dir, before := groups.keys[k], ClustersUpTo(path, root, groups, k);
    var after := if Skipped(root, dir) then before else AddSubgraph(path, dir, Labels(groups.At(k)), before);
    ClustersUpToStep(path, root, groups, k, before, after);
    ClusterStepCount(path, root, dir, Labels(groups.At(k)), before, after);
  }

  /** One more directory adds one cluster unless it is skipped. */
  lemma ClusterStepCount(path: PathOps, root: string, dir: string, nodes: seq<string>, before: seq<Subgraph>, after: seq<Subgraph>)
    requires Skipped(root, dir) ==> after == before
    requires !Skipped(root, dir) ==> after == AddSubgraph(path, dir, nodes, before)
    ensures ClusterCount(after) == ClusterCount(before) + if Skipped(root, dir) then 0 else 1
  {
    if !Skipped(root, dir) {
      AddSubgraphCount(path, dir, nodes, before);
    }
  }

  lemma KeptDirsStep(root: string, dirs: seq<string>, n: nat)
    requires 0 < n <= |dirs|
    ensures KeptDirs(root, dirs[..n]) == KeptDirs(root, dirs[..n - 1]) + if Skipped(root, dirs[n - 1]) then 0 else 1
  {
    assert dirs[..n][..n - 1] == dirs[..n - 1];
  }

  /** A title whose normalised, slashed form is non-empty and does not
      start with a slash. */
  ghost predicate RelativeTitle(path: PathOps, title: string) {
    var t := Slashed(path, title);
    |t| > 0 && t[0] != '/'
  }

  /** A relative title never encloses an absolute directory. */
  lemma RelativeTitleEncloses(path: PathOps, dir: string, title: string)
    requires StartsWith(dir, "/") && RelativeTitle(path, title)
    ensures !Encloses(path, dir, title)
  {
    var x := Slashed(path, title) + "/";
    assert x[0] != dir[0];
  }

  /** A plain name (no slash, no backslash) is a relative title under
      `path.normalize`: it normalises to `.` or to itself. */
  lemma PlainNameRelative(t: string)
    requires '/' !in t && '\\' !in t
    ensures RelativeTitle(NodePath, t)
  {
    Paths.NormalizePlain(t);
    var n := Paths.Normalize(t);
    assert '\\' !in n;
    ReplaceAllAbsent(n, '\\', "/");
    if n != "." {
      assert n[0] in t;
    }
  }

  /** An absolute path without backslashes stays absolute once normalised
      and slashed. */
  lemma SlashedAbsolute(dir: string)
    requires StartsWith(dir, "/") && '\\' !in dir
    ensures StartsWith(Slashed(NodePath, dir), "/")
  {
    var n := Paths.Normalize(dir);
    assert StartsWith(n, "/");
    Paths.NormalizeAvoids(dir, '\\');
    ReplaceAllAbsent(n, '\\', "/");
  }

  /** An absolute directory whose basename is a relative title, added beside
      top-level clusters with relative titles, becomes one more top-level
      cluster. */
  lemma AbsoluteDirTopLevel(path: PathOps, dir: string, nodes: seq<string>, before: seq<Subgraph>)
    requires StartsWith(Slashed(path, dir), "/")
    requires forall i | 0 <= i < |before| :: RelativeTitle(path, before[i].title)
    ensures AddSubgraph(path, dir, nodes, before) == before + [Subgraph(path.basename(dir), nodes, [])]
  {
    forall i | 0 <= i < |before| ensures !Encloses(path, Slashed(path, dir), before[i].title) {
      RelativeTitleEncloses(path, Slashed(path, dir), before[i].title);
    }
    AddSubgraphTopLevel(path, dir, nodes, before);
  }

  /** What the top-level result asks of one directory of the map. */
  ghost predicate AbsoluteDir(path: PathOps, dir: string) {
    StartsWith(Slashed(path, dir), "/") && RelativeTitle(path, path.basename(dir))
  }

  /** When every directory is absolute and its basename a relative title,
      no cluster is ever nested: every one is top-level, titled by the
      basename of its directory. */
  lemma {:induction false} AbsoluteClustersTopLevel(path: PathOps, root: string, groups: OMap<string, seq<nat>>, n: nat)
    requires groups.Valid() && n <= |groups.keys|
    requires forall k | 0 <= k < |groups.keys| :: AbsoluteDir(path, groups.keys[k])
    ensures forall g | g in ClustersUpTo(path, root, groups, n) ::
      g.subgraphs == [] && RelativeTitle(path, g.title) && exists k | 0 <= k < n :: g.title == path.basename(groups.keys[k])
  {
    if n > 0 {
      AbsoluteClustersTopLevel(path, root, groups, n - 1);
      var before := ClustersUpTo(path, root, groups, n - 1);
      var dir := groups.keys[n - 1];
      if !Skipped(root, dir) {
        assert AbsoluteDir(path, dir);
        assert forall i | 0 <= i < |before| :: before[i] in before;
        AbsoluteDirTopLevel(path, dir, Labels(groups.At(n - 1)), before);
        var r := ClustersUpTo(path, root, groups, n);
        forall g | g in r
          ensures g.subgraphs == [] && RelativeTitle(path, g.title)
            && exists k | 0 <= k < n :: g.title == path.basename(groups.keys[k])
        {
          if g in before {
            var k :| 0 <= k < n - 1 && g.title == path.basename(groups.keys[k]);
          } else {
            assert g.title == path.basename(groups.keys[n - 1]);
          }
        }
      }
    }
  }

  /** Absolute file paths without backslashes give absolute directories
      without backslashes, so every cluster of the graph is top-level and
      titled by a plain name. */
  lemma AbsolutePathsTopLevel(root: string, files: OMap<string, FileOutline>)
    requires files.Valid()
    requires forall i | 0 <= i < |files.keys| :: StartsWith(files.At(i).path, "/") && '\\' !in files.At(i).path
    ensures forall g | g in Clusters(root, files) :: g.subgraphs == [] && '/' !in g.title
  {
    var entries := Entries(files);
    var groups := DirGroups(entries);
    DirGroupsValid(entries);
    DirGroupsSound(entries);
    forall k | 0 <= k < |groups.keys| ensures AbsoluteDir(NodePath, groups.keys[k]) {
      var dir := groups.keys[k];
      DirGroupsNonEmpty(entries, dir);
      assert Entry(dir, groups.values[dir][0]) in entries;
      var i :| 0 <= i < |entries| && entries[i] == Entry(dir, groups.values[dir][0]);
      var p := files.At(i).path;
      Paths.DirnameAbsolute(p);
      Paths.DirnameAvoids(p, '\\');
      Paths.NormalizeAvoids(Paths.Dirname(p), '\\');
      SlashedAbsolute(dir);
      Paths.BasenameAvoids(dir, '\\');
      PlainNameRelative(Paths.Basename(dir));
    }
    AbsoluteClustersTopLevel(NodePath, root, groups, |groups.keys|);
    forall g | g in Clusters(root, files) ensures g.subgraphs == [] && '/' !in g.title {
      var i :| 0 <= i < |Clusters(root, files)| && Clusters(root, files)[i] == g;
    }
  }

  // ---------------------------------------------------------------------
  // The whole graph
  // ---------------------------------------------------------------------

  /** The error `generateDotSource` throws for a language that is not registered. */
  function NotSupported(language: string): (e: Error)
    ensures e.cause == None && StartsWith(e.message, "Language ") && EndsWith(e.message, " not supported")
    ensures Contains(e.message, language)
  {
    var m := "Language " + language + " not supported";
    assert m[..9] == "Language ";
    assert m[|m| - 14..] == " not supported";
    ContainsMiddle("Language ", language, " not supported");
    Error(m, None)
  }

  /** The graph `generateDotSource` builds from the registered state: the
      tables in registration order, the incoming, outgoing and
      implementation edges in that order, and the directory clusters; or
      the first error a table or an implementation lookup raises. */
  function BuildGraph(repr: TableMaker, root: string, files: OMap<string, FileOutline>,
                      incoming: OMap<string, seq<IncomingCall>>, outgoing: OMap<string, seq<OutgoingCall>>,
                      interfaces: OMap<string, seq<Location>>, highlights: OMap<nat, seq<Coord>>): (r: Result<Graph, Error>)
    requires files.Valid() && incoming.Valid() && outgoing.Valid() && interfaces.Valid()
    ensures r.Ok? ==> r.value.cssClass == Some(CssClass.Graph) && r.value.subgraphs == Clusters(root, files)
    ensures r.Ok? ==> Tables(repr, files, highlights, |files.keys|).Ok? && r.value.nodes == Tables(repr, files, highlights, |files.keys|).value
    ensures Tables(repr, files, highlights, |files.keys|).Err? ==> r == Err(Tables(repr, files, highlights, |files.keys|).error)
  {
    match Tables(repr, files, highlights, |files.keys|)
    case Err(e) => Err(e)
    case Ok(tables) => GraphOf(tables, root, files, incoming, outgoing, interfaces)
  }

  /** The graph over the collected tables: the incoming, then the outgoing
      call edges between their cells, then the implementation edges, and
      the clusters; or the error an implementation lookup raised. */
  function GraphOf(tables: seq<TableNode>, root: string, files: OMap<string, FileOutline>,
                   incoming: OMap<string, seq<IncomingCall>>, outgoing: OMap<string, seq<OutgoingCall>>,
                   interfaces: OMap<string, seq<Location>>): (r: Result<Graph, Error>)
    requires files.Valid() && incoming.Valid() && outgoing.Valid() && interfaces.Valid()
    ensures r.Err? <==> ImplEdges(interfaces, |interfaces.keys|, files, TablesIds(tables)).Err?
    ensures r.Ok? ==> r.value.nodes == tables && r.value.cssClass == Some(CssClass.Graph) && r.value.subgraphs == Clusters(root, files)
  {
    var ids := TablesIds(tables);
    var calls := IncomingEdges(incoming, |incoming.keys|, files, ids) + OutgoingEdges(outgoing, |outgoing.keys|, files, ids);
    match ImplEdges(interfaces, |interfaces.keys|, files, ids)
    case Err(e) => Err(e)
    case Ok(impl) => Ok(GraphTypes.Graph(tables, calls + impl, Clusters(root, files), Some(CssClass.Graph)))
  }

  /** Every edge over the tables joins two of their cells: a call edge
      carries no class, an implementation edge exactly `Impl`. */
  lemma GraphOfEdgesSound(tables: seq<TableNode>, root: string, files: OMap<string, FileOutline>,
                          incoming: OMap<string, seq<IncomingCall>>, outgoing: OMap<string, seq<OutgoingCall>>,
                          interfaces: OMap<string, seq<Location>>)
    requires files.Valid() && incoming.Valid() && outgoing.Valid() && interfaces.Valid()
    requires GraphOf(tables, root, files, incoming, outgoing, interfaces).Ok?
    ensures forall e | e in GraphOf(tables, root, files, incoming, outgoing, interfaces).value.edges ::
      SoundEdge(e, TablesIds(tables), []) || SoundEdge(e, TablesIds(tables), [CssClass.Impl])
  {
    var ids := TablesIds(tables);
    var incomingEdges := IncomingEdges(incoming, |incoming.keys|, files, ids);
    var outgoingEdges := OutgoingEdges(outgoing, |outgoing.keys|, files, ids);
    var impl := ImplEdges(interfaces, |interfaces.keys|, files, ids).value;
    var g := GraphOf(tables, root, files, incoming, outgoing, interfaces).value;
    assert g.edges == incomingEdges + outgoingEdges + impl;
    IncomingEdgesSound(incoming, |incoming.keys|, files, ids);
    OutgoingEdgesSound(outgoing, |outgoing.keys|, files, ids);
    ImplEdgesSound(interfaces, |interfaces.keys|, files, ids);
    forall e | e in g.edges
      ensures SoundEdge(e, ids, []) || SoundEdge(e, ids, [CssClass.Impl])
    {
      if e in incomingEdges {
      } else if e in outgoingEdges {
      } else {
        assert e in impl;
      }
    }
  }

  /** The graph holds one table per registered file, in registration
      order, each the file's own table under the file's id. */
  lemma BuildGraphNodes(repr: TableMaker, root: string, files: OMap<string, FileOutline>,
                        incoming: OMap<string, seq<IncomingCall>>, outgoing: OMap<string, seq<OutgoingCall>>,
                        interfaces: OMap<string, seq<Location>>, highlights: OMap<nat, seq<Coord>>)
    requires files.Valid() && incoming.Valid() && outgoing.Valid() && interfaces.Valid()
    requires KeepsIds(repr)
    requires BuildGraph(repr, root, files, incoming, outgoing, interfaces, highlights).Ok?
    ensures var g := BuildGraph(repr, root, files, incoming, outgoing, interfaces, highlights).value;
      |g.nodes| == |files.keys|
      && forall i | 0 <= i < |files.keys| ::
        TableOf(repr, files.At(i), highlights).Ok? && g.nodes[i] == TableOf(repr, files.At(i), highlights).value && g.nodes[i].id == files.At(i).id
  {
    TablesSpec(repr, files, highlights, |files.keys|);
    forall i | 0 <= i < |files.keys|
      ensures TableOf(repr, files.At(i), highlights).value.id == files.At(i).id
    {
      assert repr(files.At(i)).Ok?;
    }
  }

  /** Every edge of the graph joins two cells of its tables: a call edge
      carries no class, an implementation edge exactly `Impl`. */
  lemma BuildGraphEdgesSound(repr: TableMaker, root: string, files: OMap<string, FileOutline>,
                             incoming: OMap<string, seq<IncomingCall>>, outgoing: OMap<string, seq<OutgoingCall>>,
                             interfaces: OMap<string, seq<Location>>, highlights: OMap<nat, seq<Coord>>)
    requires files.Valid() && incoming.Valid() && outgoing.Valid() && interfaces.Valid()
    requires BuildGraph(repr, root, files, incoming, outgoing, interfaces, highlights).Ok?
    ensures var g := BuildGraph(repr, root, files, incoming, outgoing, interfaces, highlights).value;
      forall e | e in g.edges ::
        && Locations.LocationToId(e.from) in TablesIds(g.nodes) && Locations.LocationToId(e.to) in TablesIds(g.nodes)
        && (e.classes == [] || e.classes == [CssClass.Impl])
  {
    var tables := Tables(repr, files, highlights, |files.keys|).value;
    GraphOfEdgesSound(tables, root, files, incoming, outgoing, interfaces);
  }

  /** `generateDotSource()`: the error for an unregistered language, or else
      the DOT text the language's table maker leads to. */
  function DotSource(languages: map<string, Languages.Language>, language: string, root: string,
                     files: OMap<string, FileOutline>, incoming: OMap<string, seq<IncomingCall>>,
                     outgoing: OMap<string, seq<OutgoingCall>>, interfaces: OMap<string, seq<Location>>,
                     highlights: OMap<nat, seq<Coord>>): (r: Result<string, Error>)
    requires files.Valid() && incoming.Valid() && outgoing.Valid() && interfaces.Valid()
    ensures language !in languages ==> r == Err(NotSupported(language))
    ensures language in languages ==>
      r == DotSourceWith(FileReprOf(languages[language]), root, files, incoming, outgoing, interfaces, highlights)
  {
    if language !in languages then Err(NotSupported(language))
    else DotSourceWith(FileReprOf(languages[language]), root, files, incoming, outgoing, interfaces, highlights)
  }

  /** The rest of `generateDotSource()` for a known language: the DOT text of
      the built graph, or the error building it raised. */
  function DotSourceWith(repr: TableMaker, root: string,
                         files: OMap<string, FileOutline>, incoming: OMap<string, seq<IncomingCall>>,
                         outgoing: OMap<string, seq<OutgoingCall>>, interfaces: OMap<string, seq<Location>>,
                         highlights: OMap<nat, seq<Coord>>): (r: Result<string, Error>)
    requires files.Valid() && incoming.Valid() && outgoing.Valid() && interfaces.Valid()
    ensures var g := BuildGraph(repr, root, files, incoming, outgoing, interfaces, highlights);
      && (r.Ok? <==> g.Ok?)
      && (r.Err? ==> r.error == g.error)
      && (r.Ok? ==> r.value == Dot.GenerateDotSource(g.value))
  {
    match BuildGraph(repr, root, files, incoming, outgoing, interfaces, highlights)
    case Err(e) => Err(e)
    case Ok(g) => Ok(Dot.GenerateDotSource(g))
  }

  /** Some table of file `loc.file` declares the port an edge end at `loc` names. */
  ghost predicate PortDeclared(tables: seq<TableNode>, loc: LocId) {
    exists j | 0 <= j < |tables| ::
      tables[j].id == loc.file && Contains(Dot.TableDot(tables[j]), "PORT=\"" + Dot.EndpointPort(loc) + "\"")
  }

  /** Each edge of a graph whose edges join cells of its tables runs
      between two ports that its own files' tables declare. */
  lemma EdgesJoinDeclaredPorts(g: Graph)
    requires forall e | e in g.edges ::
      Locations.LocationToId(e.from) in TablesIds(g.nodes) && Locations.LocationToId(e.to) in TablesIds(g.nodes)
    ensures forall e | e in g.edges :: PortDeclared(g.nodes, e.from) && PortDeclared(g.nodes, e.to)
  {
    forall e | e in g.edges ensures PortDeclared(g.nodes, e.from) && PortDeclared(g.nodes, e.to) {
      EndpointHasPort(g.nodes, e.from);
      EndpointHasPort(g.nodes, e.to);
    }
  }

  /** Every edge of a built graph runs between two ports that the tables
      of its own files declare, so the DOT text never points at a missing cell. */
  lemma BuildGraphPortsDeclared(repr: TableMaker, root: string, files: OMap<string, FileOutline>,
                                incoming: OMap<string, seq<IncomingCall>>, outgoing: OMap<string, seq<OutgoingCall>>,
                                interfaces: OMap<string, seq<Location>>, highlights: OMap<nat, seq<Coord>>)
    requires files.Valid() && incoming.Valid() && outgoing.Valid() && interfaces.Valid()
    requires BuildGraph(repr, root, files, incoming, outgoing, interfaces, highlights).Ok?
    ensures var g := BuildGraph(repr, root, files, incoming, outgoing, interfaces, highlights).value;
      forall e | e in g.edges :: PortDeclared(g.nodes, e.from) && PortDeclared(g.nodes, e.to)
  {
    BuildGraphEdgesSound(repr, root, files, incoming, outgoing, interfaces, highlights);
    EdgesJoinDeclaredPorts(BuildGraph(repr, root, files, incoming, outgoing, interfaces, highlights).value);
  }
}
