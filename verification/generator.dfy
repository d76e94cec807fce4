/** The project-wide `GraphGenerator`: a registry of file outlines, call
    facts, implementation facts and highlighted positions, filled one call
    at a time, and the generation of the DOT text from it. Each loop of the
    generation is proved against the function of `Generation` it computes. */
module Generator {
  import opened Wrappers
  import opened Strings
  import opened JsNumbers
  import opened OrderedMaps
  import opened CssClasses
  import opened VsTypes
  import opened GraphTypes
  import Languages
  import Locations
  import LangRegistry
  import Generation
  import Dot

  class GraphGenerator {
    /** The language registry `getLanguage` consults. */
    const registry: LangRegistry.LanguageRegistry
    var root: string
    var language: string
    var files: OMap<string, FileOutline>
    var nextFileId: nat
    var incomingCalls: OMap<string, seq<IncomingCall>>
    var outgoingCalls: OMap<string, seq<OutgoingCall>>
    var interfaces: OMap<string, seq<Location>>
    var highlights: OMap<nat, seq<Coord>>

    /** The maps are well formed, the file registered `i`-th has id `i + 1`
        and is stored under its own path, and the counter is the next id. */
    predicate Valid()
      reads this
    {
      && files.Valid() && incomingCalls.Valid() && outgoingCalls.Valid() && interfaces.Valid() && highlights.Valid()
      && nextFileId == |files.keys| + 1
      && Numbered(files)
    }

    constructor(registry: LangRegistry.LanguageRegistry, root: string, language: string)
      ensures Valid()
      ensures this.registry == registry && this.root == root && this.language == language
      ensures files.keys == [] && nextFileId == 1
      ensures incomingCalls.keys == [] && outgoingCalls.keys == [] && interfaces.keys == [] && highlights.keys == []
    {
      this.registry := registry;
      this.root := root;
      this.language := language;
      files := Empty();
      nextFileId := 1;
      incomingCalls := Empty();
      outgoingCalls := Empty();
      interfaces := Empty();
      highlights := Empty();
    }

    /** `shouldFilterOutFile(filePath)`: every file is filtered out when the
        language is not registered; otherwise exactly the files the
        language's extensions reject. */
    function ShouldFilterOutFile(filePath: string): (r: bool)
      reads this, registry
      ensures language !in registry.languages ==> r
      ensures language in registry.languages ==> (r <==> !Languages.IsValidFile(registry.languages[language], filePath))
    {
      match registry.Get(language)
      case None => true
      case Some(l) => !Languages.IsValidFile(l, filePath)
    }

    /** `addFile(filePath, symbols)`: a filtered or already registered file
        is refused and nothing changes; otherwise the file is stored under
        its canonical path with the next id. A malformed `file:` URI raises
        the decoding error. */
    method AddFile(filePath: string, symbols: seq<DocumentSymbol>) returns (r: Result<bool, Error>)
      requires Valid()
      modifies this
      ensures Valid()
      ensures r == Ok(true) <==>
        && !old(ShouldFilterOutFile(filePath))
        && Locations.FsPath(filePath).Ok? && Locations.FsPath(filePath).value !in old(files.values)
      ensures r.Err? <==> !old(ShouldFilterOutFile(filePath)) && Locations.FsPath(filePath).Err?
      ensures r.Err? ==> r.error == Locations.UriMalformed
      ensures r == Ok(true) ==>
        var p := Locations.FsPath(filePath).value;
        files == old(files).Put(p, FileOutline(old(nextFileId), p, symbols)) && files.keys == old(files.keys) + [p]
      ensures r != Ok(true) ==> files == old(files) && nextFileId == old(nextFileId)
      ensures unchanged(`root, `language, `incomingCalls, `outgoingCalls, `interfaces, `highlights)
    {
      if ShouldFilterOutFile(filePath) {
        return Ok(false);
      }
      var fsPath := Locations.FsPath(filePath);
      if fsPath.Err? {
        return Err(fsPath.error);
      }
      r := Register(fsPath.value, symbols);
    }

    /** The end of `addFile` once the path is known: a path already
        registered is refused, a new one is stored with the next id. */
    method Register(p: string, symbols: seq<DocumentSymbol>) returns (r: Result<bool, Error>)
      requires Valid()
      modifies this
      ensures Valid()
      ensures r == Ok(p !in old(files.values))
      ensures r == Ok(true) ==> files == old(files).Put(p, FileOutline(old(nextFileId), p, symbols)) && files.keys == old(files.keys) + [p]
      ensures r != Ok(true) ==> files == old(files) && nextFileId == old(nextFileId)
      ensures unchanged(`root, `language, `incomingCalls, `outgoingCalls, `interfaces, `highlights)
    {
      if p in files.values {
        return Ok(false);
      }
      RegisterKeepsNumbering(files, p, symbols);
      files := files.Put(p, FileOutline(nextFileId, p, symbols));
      nextFileId := nextFileId + 1;
      return Ok(true);
    }

    /** `addIncomingCalls`: the calls are stored under the key of the
        position, replacing whatever was stored there before. */
    method AddIncomingCalls(filePath: string, position: Position, calls: seq<IncomingCall>)
      requires Valid()
      modifies this
      ensures Valid()
      ensures incomingCalls == old(incomingCalls).Put(Locations.ToKey(Locations.AtPosition(filePath, position)), calls)
      ensures unchanged(`root, `language, `files, `nextFileId, `outgoingCalls, `interfaces, `highlights)
    {
      var location := Locations.AtPosition(filePath, position);
      incomingCalls := incomingCalls.Put(Locations.ToKey(location), calls);
    }

    /** `addOutgoingCalls`: as for incoming calls, in their own map. */
    method AddOutgoingCalls(filePath: string, position: Position, calls: seq<OutgoingCall>)
      requires Valid()
      modifies this
      ensures Valid()
      ensures outgoingCalls == old(outgoingCalls).Put(Locations.ToKey(Locations.AtPosition(filePath, position)), calls)
      ensures unchanged(`root, `language, `files, `nextFileId, `incomingCalls, `interfaces, `highlights)
    {
      var location := Locations.AtPosition(filePath, position);
      outgoingCalls := outgoingCalls.Put(Locations.ToKey(location), calls);
    }

    /** `addInterfaceImplementations`: the implementations of the symbol at
        the position, replacing earlier ones. */
    method AddInterfaceImplementations(filePath: string, position: Position, locations: seq<Location>)
      requires Valid()
      modifies this
      ensures Valid()
      ensures interfaces == old(interfaces).Put(Locations.ToKey(Locations.AtPosition(filePath, position)), locations)
      ensures unchanged(`root, `language, `files, `nextFileId, `incomingCalls, `outgoingCalls, `highlights)
    {
      var location := Locations.AtPosition(filePath, position);
      interfaces := interfaces.Put(Locations.ToKey(location), locations);
    }

    /** `highlight(filePath, position)`: nothing happens unless the raw path
        is a registered key; otherwise the position joins the file's list. */
    method Highlight(filePath: string, position: Position)
      requires Valid()
      modifies this
      ensures Valid()
      ensures filePath !in files.values ==> highlights == old(highlights)
      ensures filePath in files.values ==>
        var id := files.values[filePath].id;
        var before := if id in old(highlights.values) then old(highlights.values[id]) else [];
        highlights == old(highlights).Put(id, before + [Coord(position.line, position.character)])
      ensures unchanged(`root, `language, `files, `nextFileId, `incomingCalls, `outgoingCalls, `interfaces)
    {
      match files.Get(filePath)
      case None =>
      case Some(file) =>
        var positions := match highlights.Get(file.id) case None => [] case Some(ps) => ps;
        highlights := highlights.Put(file.id, positions + [Coord(position.line, position.character)]);
    }

    /** `generateDotSource()`: the DOT text of the registered state, or the
        error for an unregistered language or a failing lookup. */
    method GenerateDotSource() returns (r: Result<string, Error>)
      requires Valid()
      ensures r == Generation.DotSource(registry.languages, language, root, files, incomingCalls, outgoingCalls, interfaces, highlights)
    {
      var lang := registry.Get(language);
      if lang.None? {
        return Err(Generation.NotSupported(language));
      }
      var l := lang.value;
      var graph := BuildGraph(Generation.FileReprOf(l), root, files, incomingCalls, outgoingCalls, interfaces, highlights);
      assert l == registry.languages[language];
      if graph.Err? {
        return Err(graph.error);
      }
      var text := Dot.GenerateDotSource(graph.value);
      return Ok(text);
    }
  }

  /** The file registered `i`-th has id `i + 1` and is stored under its own path. */
  predicate Numbered(files: OMap<string, FileOutline>)
    requires files.Valid()
  {
    forall i | 0 <= i < |files.keys| :: files.At(i).id == i + 1 && files.At(i).path == files.keys[i]
  }

  /** Registering a new path with the next id keeps the files numbered. */
  lemma RegisterKeepsNumbering(files: OMap<string, FileOutline>, p: string, symbols: seq<DocumentSymbol>)
    requires files.Valid() && Numbered(files) && p !in files.values
    ensures files.Put(p, FileOutline(|files.keys| + 1, p, symbols)).Valid()
    ensures Numbered(files.Put(p, FileOutline(|files.keys| + 1, p, symbols)))
  {
    var r := files.Put(p, FileOutline(|files.keys| + 1, p, symbols));
    forall i | 0 <= i < |r.keys| ensures r.At(i).id == i + 1 && r.At(i).path == r.keys[i] {
      if i < |files.keys| {
        assert r.keys[i] == files.keys[i] != p;
      }
    }
  }

  /** The body of `generateDotSource` once the language is known: the
      tables and cell ids, the incoming, outgoing and implementation edges,
      the clusters, and the graph they make. */
  method BuildGraph(repr: Generation.TableMaker, root: string, files: OMap<string, FileOutline>,
                    incomingCalls: OMap<string, seq<IncomingCall>>, outgoingCalls: OMap<string, seq<OutgoingCall>>,
                    interfaces: OMap<string, seq<Location>>, highlights: OMap<nat, seq<Coord>>) returns (r: Result<Graph, Error>)
    requires files.Valid() && incomingCalls.Valid() && outgoingCalls.Valid() && interfaces.Valid()
    requires Generation.KeepsIds(repr)
    ensures r == Generation.BuildGraph(repr, root, files, incomingCalls, outgoingCalls, interfaces, highlights)
  {
    var tables, cellIds := BuildTables(repr, files, highlights);
    if tables.Err? {
      return Err(tables.error);
    }
    r := ConnectTables(tables.value, cellIds, root, files, incomingCalls, outgoingCalls, interfaces);
  }

  /** The rest of `generateDotSource` once the tables are built: the
      incoming, outgoing and implementation edges between their cells,
      then the clusters. */
  method ConnectTables(tables: seq<TableNode>, cellIds: set<string>, root: string, files: OMap<string, FileOutline>,
                       incomingCalls: OMap<string, seq<IncomingCall>>, outgoingCalls: OMap<string, seq<OutgoingCall>>,
                       interfaces: OMap<string, seq<Location>>) returns (r: Result<Graph, Error>)
    requires files.Valid() && incomingCalls.Valid() && outgoingCalls.Valid() && interfaces.Valid()
    requires cellIds == Generation.TablesIds(tables)
    ensures r == Generation.GraphOf(tables, root, files, incomingCalls, outgoingCalls, interfaces)
  {
    var incoming := IncomingCallEdges(incomingCalls, files, cellIds);
    var outgoing := OutgoingCallEdges(outgoingCalls, files, cellIds);
    var impl := ImplementationEdges(interfaces, files, cellIds);
    if impl.Err? {
      return Err(impl.error);
    }
    var subgraphs := GenerateSubgraphs(root, files);
    return Ok(GraphTypes.Graph(tables, incoming + outgoing + impl.value, subgraphs, Some(CssClass.Graph)));
  }

  /** The table loop of `generateDotSource`: each file's table, highlighted
      when positions were recorded for it, and the ids of its cells. */
  method BuildTables(repr: Generation.TableMaker, registered: OMap<string, FileOutline>, marked: OMap<nat, seq<Coord>>)
    returns (tables: Result<seq<TableNode>, Error>, cellIds: set<string>)
    requires registered.Valid() && Generation.KeepsIds(repr)
    ensures tables == Generation.Tables(repr, registered, marked, |registered.keys|)
    ensures tables.Ok? ==> cellIds == Generation.TablesIds(tables.value)
  {
    var done: seq<TableNode> := [];
    cellIds := {};
    for i := 0 to |registered.keys|
      invariant Generation.Tables(repr, registered, marked, i) == Ok(done)
      invariant cellIds == Generation.TablesIds(done)
    {
      var file := registered.At(i);
      var made := TableFor(repr, file, marked);
      Generation.TablesStep(repr, registered, marked, i, done);
      if made.Err? {
        Generation.TablesKeepError(repr, registered, marked, i + 1, |registered.keys|);
        return Err(made.error), cellIds;
      }
      var table := made.value;
      assert table.id == file.id by {
        assert repr(file).Ok?;
      }
      cellIds := CollectCellIds(file.id, table, cellIds);
      Generation.TablesIdsSnoc(done, table);
      done := done + [table];
    }
    tables := Ok(done);
  }

  /** One file's table: the language's table, then `highlightCells` when
      positions were recorded under the file's id. */
  method TableFor(repr: Generation.TableMaker, file: FileOutline, marked: OMap<nat, seq<Coord>>) returns (r: Result<TableNode, Error>)
    ensures r == Generation.TableOf(repr, file, marked)
  {
    r := repr(file);
    if r.Ok? && file.id in marked.values {
      var table := HighlightCells(r.value, marked.values[file.id]);
      r := Ok(table);
    }
  }

  /** `highlightCells(table, positions)`: for each top-level cell of each
      section, `Highlight` is added for each position the cell is at. */
  method HighlightCells(table: TableNode, positions: seq<Coord>) returns (r: TableNode)
    ensures r == Generation.HighlightTable(table, positions)
  {
    var sections: seq<TableSection> := [];
    for i := 0 to |table.sections|
      invariant |sections| == i
      invariant forall k | 0 <= k < i :: sections[k] == Generation.HighlightSection(table.sections[k], positions)
    {
      var section := table.sections[i];
      var cells: seq<Cell> := [];
      for j := 0 to |section.cells|
        invariant |cells| == j
        invariant forall k | 0 <= k < j :: cells[k] == Generation.HighlightCell(section.cells[k], positions)
      {
        var cell := section.cells[j];
        var classes := cell.style.classes;
        for p := 0 to |positions|
          invariant classes == Generation.HighlightedClasses(cell, positions[..p])
        {
          if Generation.IsCellAtPosition(cell, positions[p]) {
            classes := AddClass(classes, CssClass.Highlight);
          }
          assert positions[..p + 1][..p] == positions[..p];
        }
        assert positions[..|positions|] == positions;
        cells := cells + [cell.(style := cell.style.(classes := classes))];
      }
      sections := sections + [section.(cells := cells)];
    }
    r := table.(sections := sections);
  }

  /** `collectCellIds(tableId, table, cellIds)`: the ids of the cells of
      every section, depth-first, added to `cellIds`. */
  method CollectCellIds(tableId: nat, table: TableNode, cellIds: set<string>) returns (r: set<string>)
    ensures r == cellIds + Generation.SectionsIds(tableId, table.sections)
  {
    r := cellIds;
    for i := 0 to |table.sections|
      invariant r == cellIds + Generation.SectionsIds(tableId, table.sections[..i])
    {
      var cells := table.sections[i].cells;
      for j := 0 to |cells|
        invariant r == cellIds + Generation.SectionsIds(tableId, table.sections[..i]) + Generation.CellsIds(tableId, cells[..j])
      {
        r := ProcessCell(tableId, cells[j], r);
        assert cells[..j + 1][..j] == cells[..j];
      }
      assert cells[..|cells|] == cells;
      assert table.sections[..i + 1][..i] == table.sections[..i];
    }
    assert table.sections[..|table.sections|] == table.sections;
  }

  /** `processCell(cell)`: a cell with no place is skipped with its whole
      subtree; otherwise its id is added, then its children's in order. */
  method ProcessCell(tableId: nat, cell: Cell, ids: set<string>) returns (r: set<string>)
    ensures r == ids + Generation.CellIds(tableId, cell)
    decreases cell
  {
    var id: string;
    if cell.rangeStart.Some? {
      id := Locations.LocationToId(LocId(tableId, Int(cell.rangeStart.value.line), Int(cell.rangeStart.value.character)));
    } else if cell.position.Some? {
      id := Locations.LocationToId(LocId(tableId, Int(cell.position.value.row), Int(cell.position.value.col)));
    } else {
      return ids;
    }
    r := ids + {id};
    for k := 0 to |cell.children|
      invariant r == ids + {id} + Generation.CellsIds(tableId, cell.children[..k])
    {
      r := ProcessCell(tableId, cell.children[k], r);
      assert cell.children[..k + 1][..k] == cell.children[..k];
    }
    assert cell.children[..|cell.children|] == cell.children;
  }

  /** The incoming-call loop: for each entry whose own location is a
      collected cell, an edge from each caller that is one too. */
  method IncomingCallEdges(incomingCalls: OMap<string, seq<IncomingCall>>, files: OMap<string, FileOutline>, cellIds: set<string>)
    returns (edges: seq<Edge>)
    requires incomingCalls.Valid()
    ensures edges == Generation.IncomingEdges(incomingCalls, |incomingCalls.keys|, files, cellIds)
  {
    edges := [];
    for k := 0 to |incomingCalls.keys|
      invariant edges == Generation.IncomingEdges(incomingCalls, k, files, cellIds)
    {
      var more := IncomingEntryEdges(incomingCalls.keys[k], incomingCalls.At(k), files, cellIds);
      edges := edges + more;
    }
  }

  /** The outgoing-call loop: for each entry whose own location is a
      collected cell, an edge to each callee that is one too. */
  method OutgoingCallEdges(outgoingCalls: OMap<string, seq<OutgoingCall>>, files: OMap<string, FileOutline>, cellIds: set<string>)
    returns (edges: seq<Edge>)
    requires outgoingCalls.Valid()
    ensures edges == Generation.OutgoingEdges(outgoingCalls, |outgoingCalls.keys|, files, cellIds)
  {
    edges := [];
    for k := 0 to |outgoingCalls.keys|
      invariant edges == Generation.OutgoingEdges(outgoingCalls, k, files, cellIds)
    {
      var more := OutgoingEntryEdges(outgoingCalls.keys[k], outgoingCalls.At(k), files, cellIds);
      edges := edges + more;
    }
  }

  /** The implementation loop: an `Impl` edge from each implementation
      that is a collected cell to the interface it implements; a
      malformed `file:` URI among the implementations raises. */
  method ImplementationEdges(entries: OMap<string, seq<Location>>, registered: OMap<string, FileOutline>, cellIds: set<string>)
    returns (edges: Result<seq<Edge>, Error>)
    requires entries.Valid()
    ensures edges == Generation.ImplEdges(entries, |entries.keys|, registered, cellIds)
  {
    var done: seq<Edge> := [];
    for k := 0 to |entries.keys|
      invariant Generation.ImplEdges(entries, k, registered, cellIds) == Ok(done)
    {
      var more := ImplEntryEdges(entries.keys[k], entries.At(k), registered, cellIds);
      if more.Err? {
        Generation.ImplEdgesKeepError(entries, k + 1, |entries.keys|, registered, cellIds);
        return Err(more.error);
      }
      done := done + more.value;
    }
    edges := Ok(done);
  }

  /** `generateSubgraphs()`: the files grouped by directory, then one
      cluster per directory that is not skipped. */
  method GenerateSubgraphs(root: string, files: OMap<string, FileOutline>) returns (subgraphs: seq<Subgraph>)
    requires files.Valid()
    ensures subgraphs == Generation.Clusters(root, files)
  {
    var dirMap := GroupByDirectory(files);
    Generation.DirGroupsValid(Generation.Entries(files));
    subgraphs := ClusterDirectories(root, dirMap);
  }

  /** The cluster loop of `generateSubgraphs`: `/`, `.` and the root are
      skipped, every other directory is added with its files' labels. */
  method ClusterDirectories(root: string, dirMap: OMap<string, seq<nat>>) returns (subgraphs: seq<Subgraph>)
    requires dirMap.Valid()
    ensures subgraphs == Generation.ClustersUpTo(Generation.NodePath, root, dirMap, |dirMap.keys|)
  {
    subgraphs := [];
    for k := 0 to |dirMap.keys|
      invariant subgraphs == Generation.ClustersUpTo(Generation.NodePath, root, dirMap, k)
    {
      subgraphs := ClusterDirectory(root, dirMap, k, subgraphs);
    }
  }

  /** One round of the cluster loop: the `k`th directory is skipped or added. */
  method ClusterDirectory(root: string, dirMap: OMap<string, seq<nat>>, k: nat, subgraphs: seq<Subgraph>) returns (r: seq<Subgraph>)
    requires dirMap.Valid() && k < |dirMap.keys|
    requires subgraphs == Generation.ClustersUpTo(Generation.NodePath, root, dirMap, k)
    ensures r == Generation.ClustersUpTo(Generation.NodePath, root, dirMap, k + 1)
  {
    var dir := dirMap.keys[k];
    r := subgraphs;
    if dir != "/" && dir != "." && dir != root {
      r := AddSubgraphExact(dir, Generation.Labels(dirMap.At(k)), subgraphs);
    }
    Generation.ClustersUpToStep(Generation.NodePath, root, dirMap, k, subgraphs, r);
  }

  /** `addSubgraphExact(dir, nodes, subgraphs)`: the scan for the longest
      enclosing top-level title, then the new cluster, at the top level
      or as a child of that one. */
  method AddSubgraphExact(dir: string, nodes: seq<string>, subgraphs: seq<Subgraph>) returns (r: seq<Subgraph>)
    ensures r == Generation.AddSubgraph(Generation.NodePath, dir, nodes, subgraphs)
  {
    var path := Generation.NodePath;
    var normalizedDir := Generation.Slashed(path, dir);
    var ancestor: Option<nat> := None;
    var longestPrefix := "";
    for i := 0 to |subgraphs|
      invariant Generation.AncestorScan(path, normalizedDir, subgraphs, i) == Generation.Scan(ancestor, longestPrefix)
    {
      var normalizedTitle := Generation.Slashed(path, subgraphs[i].title);
      if StartsWith(normalizedDir, normalizedTitle + "/") && |normalizedTitle| > |longestPrefix| {
        ancestor := Some(i);
        longestPrefix := normalizedTitle;
      }
    }
    match ancestor
    case None =>
      r := subgraphs + [Subgraph(path.basename(dir), nodes, [])];
    case Some(i) =>
      var relativeDir := normalizedDir[|longestPrefix| + 1..];
      var child := Subgraph(path.basename(relativeDir), nodes, []);
      r := subgraphs[i := subgraphs[i].(subgraphs := subgraphs[i].subgraphs + [child])];
  }

  /** The grouping loop of `generateSubgraphs`: each file's id appended to
      the list of its directory, a new directory going to the end. */
  method GroupByDirectory(files: OMap<string, FileOutline>) returns (dirMap: OMap<string, seq<nat>>)
    requires files.Valid()
    ensures dirMap == Generation.DirGroups(Generation.Entries(files))
  {
    dirMap := Empty();
    ghost var entries := Generation.Entries(files);
    for i := 0 to |files.keys|
      invariant dirMap == Generation.DirGroups(entries[..i])
    {
      var file := files.At(i);
      var dir := Generation.FileDir(file.path);
      assert entries[i] == Generation.Entry(dir, file.id);
      Generation.TakeOneMore(entries, i);
      dirMap := GroupFile(entries[..i], dirMap, dir, file.id);
    }
    assert entries[..|files.keys|] == entries;
  }

  /** One round of that loop: the file's id joins its directory's group,
      which is created when the directory is new. */
  method GroupFile(ghost entries: seq<Generation.Entry>, dirMap: OMap<string, seq<nat>>, dir: string, id: nat)
    returns (r: OMap<string, seq<nat>>)
    requires dirMap == Generation.DirGroups(entries)
    ensures r == Generation.DirGroups(entries + [Generation.Entry(dir, id)])
  {
    assert (entries + [Generation.Entry(dir, id)])[..|entries|] == entries;
    match dirMap.Get(dir)
    case None =>
      r := dirMap.Put(dir, [id]);
    case Some(nodes) =>
      r := dirMap.Put(dir, nodes + [id]);
  }

  /** One `incomingCalls` entry: nothing unless the key's own location is
      a collected cell, else an edge from each caller that is one too. */
  method IncomingEntryEdges(key: string, calls: seq<IncomingCall>, files: OMap<string, FileOutline>, cellIds: set<string>)
    returns (r: seq<Edge>)
    ensures r == Generation.IncomingEdgesOf(key, calls, files, cellIds)
  {
    var to := Generation.KeyLocation(key, files);
    r := [];
    if to.Some? && Locations.LocationToId(to.value) in cellIds {
      r := AddCallerEdges(calls, to.value, files, cellIds, r);
    }
  }

  /** One `outgoingCalls` entry: nothing unless the key's own location is
      a collected cell, else an edge to each callee that is one too. */
  method OutgoingEntryEdges(key: string, calls: seq<OutgoingCall>, files: OMap<string, FileOutline>, cellIds: set<string>)
    returns (r: seq<Edge>)
    ensures r == Generation.OutgoingEdgesOf(key, calls, files, cellIds)
  {
    var from := Generation.KeyLocation(key, files);
    r := [];
    if from.Some? && Locations.LocationToId(from.value) in cellIds {
      r := AddCalleeEdges(calls, from.value, files, cellIds, r);
    }
  }

  /** The inner loop over the callers of one `incomingCalls` entry. */
  method AddCallerEdges(calls: seq<IncomingCall>, to: LocId, files: OMap<string, FileOutline>, cellIds: set<string>, edges: seq<Edge>)
    returns (r: seq<Edge>)
    ensures r == edges + Generation.CallerEdges(calls, to, files, cellIds)
  {
    r := edges;
    for j := 0 to |calls|
      invariant r == edges + Generation.CallerEdges(calls[..j], to, files, cellIds)
    {
      var from := Locations.CallItemToLocationId(calls[j].from, files);
      assert calls[..j + 1][..j] == calls[..j];
      assert Generation.CallerEdges(calls[..j + 1], to, files, cellIds)
        == Generation.CallerEdges(calls[..j], to, files, cellIds) + Generation.CallerEdge(calls[j], to, files, cellIds);
      if from.Some? && Locations.LocationToId(from.value) in cellIds {
        r := r + [Edge(from.value, to, [])];
      }
    }
    assert calls[..|calls|] == calls;
  }

  /** The inner loop over the callees of one `outgoingCalls` entry. */
  method AddCalleeEdges(calls: seq<OutgoingCall>, from: LocId, files: OMap<string, FileOutline>, cellIds: set<string>, edges: seq<Edge>)
    returns (r: seq<Edge>)
    ensures r == edges + Generation.CalleeEdges(calls, from, files, cellIds)
  {
    r := edges;
    for j := 0 to |calls|
      invariant r == edges + Generation.CalleeEdges(calls[..j], from, files, cellIds)
    {
      var to := Locations.CallItemToLocationId(calls[j].to, files);
      assert calls[..j + 1][..j] == calls[..j];
      assert Generation.CalleeEdges(calls[..j + 1], from, files, cellIds)
        == Generation.CalleeEdges(calls[..j], from, files, cellIds) + Generation.CalleeEdge(calls[j], from, files, cellIds);
      if to.Some? && Locations.LocationToId(to.value) in cellIds {
        r := r + [Edge(from, to.value, [])];
      }
    }
    assert calls[..|calls|] == calls;
  }

  /** One `interfaces` entry: nothing unless the key's own location is a
      collected cell, else the edges from its implementations. */
  method ImplEntryEdges(key: string, locs: seq<Location>, files: OMap<string, FileOutline>, cellIds: set<string>)
    returns (r: Result<seq<Edge>, Error>)
    ensures r == Generation.ImplEdgesOf(key, locs, files, cellIds)
  {
    var to := Generation.KeyLocation(key, files);
    if to.Some? && Locations.LocationToId(to.value) in cellIds {
      r := AddImplementerEdges(locs, to.value, files, cellIds);
    } else {
      r := Ok([]);
    }
  }

  /** The inner loop over the implementations of one `interfaces` entry;
      the first lookup that raises ends it with that error. */
  method AddImplementerEdges(locs: seq<Location>, to: LocId, files: OMap<string, FileOutline>, cellIds: set<string>)
    returns (r: Result<seq<Edge>, Error>)
    ensures r == Generation.ImplementerEdges(locs, to, files, cellIds)
  {
    var done: seq<Edge> := [];
    for j := 0 to |locs|
      invariant Generation.ImplementerEdges(locs[..j], to, files, cellIds) == Ok(done)
    {
      var from := Generation.ImplementerLocation(locs[j], files);
      assert locs[..j + 1][..j] == locs[..j];
      if from.Err? {
        Generation.ImplementerEdgesKeepError(locs, to, files, cellIds, j + 1);
        return Err(from.error);
      }
      var edge := if Generation.Attached(from.value, cellIds) then [Edge(from.value.value, to, [CssClass.Impl])] else [];
      assert Generation.ImplementerEdges(locs[..j + 1], to, files, cellIds) == Ok(done + edge);
      done := done + edge;
    }
    assert locs[..|locs|] == locs;
    r := Ok(done);
  }
}
