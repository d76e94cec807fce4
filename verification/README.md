# crabviz call-graph pipeline in Dafny

crabviz draws call graphs of source code. An editor extension hands it the
symbol outline of each file (a tree of document symbols) together with
call-hierarchy facts (incoming and outgoing calls) and interface
implementations, and crabviz turns them into a Graphviz DOT document. In
that document every file is an HTML-like table of its symbols, every call
is an edge between two table cells, and the files are grouped into
clusters by directory.

This project models that pipeline and proves properties of the model:

- `Generator.GraphGenerator` is the project-wide registry. It is a class
  whose methods update its maps and its file counter in place: files are
  registered with dense ids under a canonical path, call and
  implementation facts are stored under `path:line:character` keys, and
  positions are marked for highlighting. `GenerateDotSource` builds one
  table per file through the language rules, collects the ids of all
  cells, keeps only the edges whose two ends are collected cells, groups
  the files into directory clusters and serializes the graph.
- `Generation` holds the functions that specify each step of
  `generateDotSource`, with the lemmas about them. The central one is edge
  soundness: every emitted edge joins two cells that the document declares
  as ports.
- `LangBase`, `LangJava`, `LangRust`, `LangPython`, `LangGo`,
  `LangTypeScript` and `Languages` model the per-language rules: valid
  files, test-file filters, file titles, symbol inclusion, styles, titles,
  and the recursive table builder. `LangRegistry` models the registry of
  languages.
- `Dot` models the DOT serializer: HTML escaping, cells, tables, clusters,
  edges and the document frame.
- `Locations` and `LocationIds` model location keys and their resolution
  to `[fileId, line, character]` triples.
- `SingleFile` models the alternative generator for one file. It is a
  class that walks the ancestors of the file's directory and nests
  clusters under the first enclosing title.
- `LspTypes`, `CssClasses` and `Models` model the runtime guards of
  protocol values, the CSS class enum and the mutable style object.
- `Paths`, `Strings`, `JsNumbers`, `OrderedMaps` and `Wrappers` give the
  model the parts of Node's `path` module, of JavaScript strings and
  numbers, of JavaScript `Map` and of exceptions that the source relies
  on.

## Model

| member | source | states |
|---|---|---|
| CssClasses.CssClassToString | src/types/css-classes.ts:46-48 | the lower-cased value of a class is the class's own enum value, which is non-empty and already lower case |
| CssClasses.ValueIsLower | src/types/css-classes.ts:7-35 | every enum value is lower case, so lower-casing leaves it unchanged |
| CssClasses.ValuesDistinct | src/types/css-classes.ts:4-36 | two classes with the same string value are the same class: the twelve values are pairwise distinct |
| CssClasses.AddClass | src/types/css-classes.ts:41 | adding to a class set keeps every class, adds the new one, adds nothing else, changes nothing when the class is already there, and appends a new class at the end, which fixes the order of the DOT `class` attribute |
| Models.ClassSet.Add | src/types/css-classes.ts:41 | `set.add` on a shared set object: its items become the old items with the class added as a set |
| Models.StyleImpl.constructor | src/graph/models.ts:22-36 | supplied classes are the very set object given (aliased), absent classes are a fresh empty set, `rounded` is true only when given as true, and every other field is copied or absent |
| Models.SharedClasses | src/graph/models.ts:23 | an example: two styles built from one initialiser share its class set, so an addition through one is seen through the other |
| LspTypes.CreatePosition | src/types/lsp-types.ts:36-44 | succeeds exactly when line and character are non-negative numbers; a bad line is reported first, with its value in the message, then a bad character |
| LspTypes.PositionGuardMatchesConstructor | src/types/lsp-types.ts:23-44 | `isPosition` accepts the object built from a line and a character exactly when `createPosition` accepts them |
| LspTypes.CreateRange | src/types/lsp-types.ts:70-78 | succeeds exactly when both ends are positions; a bad start is reported before a bad end |
| LspTypes.CreateRangeIsRange | src/types/lsp-types.ts:57-78 | what `createRange` builds passes `isRange` |
| LspTypes.BackwardsRangeAccepted | src/types/lsp-types.ts:57-64 | any two positions with non-negative coordinates whose end precedes the start still make a range that passes `isRange`: the order is never checked |
| LspTypes.TypedSymbolIsValid | src/types/lsp-types.ts:105-116 | every well-typed document symbol, with all its descendants, passes the recursive `isDocumentSymbol` guard |
| LspTypes.SymbolValueHead | src/types/lsp-types.ts:108-113 | the name, detail, kind, range and selection range of a typed symbol pass their guards |
| LspTypes.InvalidChildRejected | src/types/lsp-types.ts:114 | one invalid child makes the whole symbol invalid |
| LspTypes.ToUri | src/types/lsp-types.ts:131-159 | a string becomes a `file` URI whose path, file-system path and `toString()` are that string; any other value is returned unchanged; a URI stays a URI |
| LspTypes.CreateLocation | src/types/lsp-types.ts:171-184 | succeeds exactly when the URI and the range are valid; `Invalid URI` is reported before `Invalid range`; the result is a location holding `toUri(uri)` and the range |
| LspTypes.LocationLinkOriginOptional | src/types/lsp-types.ts:189-198 | a link without an origin selection range passes `isLocationLink` when its three required members are valid |
| LocationIds.FromPosition | src/generator/types/index.ts:25-27 | the location keeps the path and copies line and character unchanged |
| LocationIds.ToLocationId | src/generator/types/index.ts:32-36 | defined exactly when the raw path is registered, and then the file's id with the location's line and character |
| LocationIds.ItemToLocationId | src/generator/types/index.ts:42-49 | looks the file up under the item's URI string or the URI's `path`; defined exactly when that key is registered, and then the file's id with the start of the item's range |
| LocationIds.RawPathNotCanonicalised | src/generator/types/index.ts:32-36 | a registered path is not found through its `file://` spelling by this lookup, while the project-wide lookup finds it |
| Locations.AtPosition | src/generator.ts:78 | the location of a call fact keeps the path and the position's line and character |
| Locations.ParseKey | src/generator.ts:148-149 | the path read back from a key by `split(':')` never holds a colon |
| Locations.KeyRoundTrip | src/generator/types.ts:43-45 | splitting `path:line:character` on `:` and reading the numbers with `parseInt` gives back the location whenever the path holds no colon |
| Locations.KeyLosesColonPath | src/generator/types.ts:44 | a path holding a colon never survives the key: only the text before its first colon is read back |
| Locations.FsPath | src/generator/types.ts:27-29 | a path not starting with `file:` is used as it is; otherwise the first seven characters are dropped and the rest is percent-decoded, and the only failure is the malformed-URI error |
| Locations.FsPathOfFileUri | src/generator/types.ts:27-29 | a `file://` URI without escapes names the path after its prefix |
| Locations.ParsedPathIsPlain | src/generator.ts:148-150 | a path read back from a key has no colon, so it never takes the decoding branch and never fails |
| Locations.LocationId | src/generator/types.ts:25-38 | fails exactly when decoding fails; otherwise defined exactly when the canonical path is registered, and then the file's id with the location's own line and character |
| Locations.CallItemToLocationId | src/generator/types.ts:51-63 | defined exactly when the item's file-system path is registered, and then the file's id with the start of the item's full range |
| Locations.LocationToIdMatchesCell | src/generator.ts:317-320 | a location's `fileId_line_character` id equals the id of a cell's place exactly when the location is that place, so NaN never matches and no two places share an id |
| Generator.GraphGenerator.constructor | src/generator.ts:20-30 | the generator keeps the root and the language it is given, starts with no files and next id 1, and all four fact maps start empty |
| Generator.GraphGenerator.ShouldFilterOutFile | src/generator.ts:32-38 | a file is filtered out whenever the language is not registered; otherwise exactly when that language's `isValidFile` rejects the path |
| Generator.GraphGenerator.AddFile | src/generator.ts:40-74 | the result is true exactly when the file passes the filter, its `file:` URI decodes, and the canonical path is new; only a decoding failure raises, with the malformed-URI error; on success the file is stored under that path with the old next id, appended to the registration order; otherwise the files and the counter are unchanged; the fact maps never change |
| Generator.GraphGenerator.Register | src/generator.ts:60-73 | the result is true exactly when the path is new; a new path is stored with the next id, at the end of the registration order, and the numbering invariant (the file registered i-th has id i+1) is kept |
| Generator.RegisterKeepsNumbering | src/generator.ts:65-71 | storing a new path with id one more than the number of files keeps every file's id equal to its place in registration order and its path equal to its key |
| Generator.GraphGenerator.AddIncomingCalls | src/generator.ts:76-82 | the calls are stored under the `path:line:character` key of the position, replacing what was there, and nothing else changes |
| Generator.GraphGenerator.AddOutgoingCalls | src/generator.ts:84-90 | the same for outgoing calls, in their own map |
| Generator.GraphGenerator.AddInterfaceImplementations | src/generator.ts:92-95 | the same for implementation locations, in their own map |
| Generator.GraphGenerator.Highlight | src/generator.ts:97-110 | nothing changes unless the raw path is a registered key; otherwise the position is appended to that file's list, which is created when absent, and nothing else changes |
| Generator.GraphGenerator.GenerateDotSource | src/generator.ts:112-238 | an unregistered language raises `Language <name> not supported`; otherwise the result is the DOT text of the graph `Generation.BuildGraph` describes for that language's table maker, or the error building it raised |
| Generator.BuildGraph | src/generator.ts:123-235 | the tables are built first and their error ends the run; otherwise the graph over those tables, as `Generation.BuildGraph` specifies it |
| Generator.BuildTables | src/generator.ts:127-137 | one table per file in registration order, highlighted when positions were marked for it, or the first error the language's table maker raised; on success the collected ids are exactly the ids of the cells of those tables |
| Generator.TableFor | src/generator.ts:129-133 | the language's table for the file, highlighted with the file's marked positions when there are any |
| Generator.HighlightCells | src/generator.ts:371-381 | the loop computes `Generation.HighlightTable`: a top-level cell gains `highlight` exactly when its place is one of the positions, and nothing else in the table changes |
| Generator.CollectCellIds | src/generator.ts:322-369 | the id set grows by exactly the ids of the cells of every section of the table, visited depth-first |
| Generator.ProcessCell | src/generator.ts:328-360 | a cell without a place adds nothing, not even for its children; otherwise its own `table_line_character` id and its children's ids are added |
| Generator.ConnectTables | src/generator.ts:142-235 | the incoming, then the outgoing, then the implementation edges between collected cells, with the directory clusters, or the error an implementation lookup raised |
| Generator.IncomingCallEdges | src/generator.ts:146-170 | the loop over all stored incoming-call entries computes `Generation.IncomingEdges`, entry by entry in insertion order |
| Generator.IncomingEntryEdges | src/generator.ts:147-169 | one entry yields edges only when its key resolves to a collected cell, and then one edge from each caller that resolves to a collected cell |
| Generator.AddCallerEdges | src/generator.ts:154-166 | the loop over the callers appends exactly `Generation.CallerEdges`: an unclassed edge from each attached caller to the entry, in call order |
| Generator.OutgoingCallEdges | src/generator.ts:173-197 | the loop over all stored outgoing-call entries computes `Generation.OutgoingEdges` |
| Generator.OutgoingEntryEdges | src/generator.ts:174-196 | one entry yields edges only when its key resolves to a collected cell, and then one edge to each callee that resolves to a collected cell |
| Generator.AddCalleeEdges | src/generator.ts:181-193 | the loop over the callees appends exactly `Generation.CalleeEdges`: an unclassed edge from the entry to each attached callee |
| Generator.ImplementationEdges | src/generator.ts:202-224 | the loop over all implementation entries computes `Generation.ImplEdges`, stopping at the first lookup that raises |
| Generator.ImplEntryEdges | src/generator.ts:203-223 | one entry yields edges only when its key resolves to a collected cell |
| Generator.AddImplementerEdges | src/generator.ts:208-222 | an `impl` edge from each implementation that resolves to a collected cell to the interface, or the first decoding error |
| Generator.GenerateSubgraphs | src/generator.ts:240-265 | the clusters are `Generation.Clusters` of the registered files |
| Generator.GroupByDirectory | src/generator.ts:245-253 | the grouping loop computes `Generation.DirGroups` of the files' directory entries |
| Generator.GroupFile | src/generator.ts:246-252 | one round adds the file's id at the end of its directory's list, creating the list at the end of the map when the directory is new |
| Generator.ClusterDirectories | src/generator.ts:256-262 | the cluster loop computes `Generation.ClustersUpTo` over the whole directory map |
| Generator.ClusterDirectory | src/generator.ts:257-261 | `/`, `.` and the root are skipped; any other directory is added through `addSubgraphExact` |
| Generator.AddSubgraphExact | src/generator.ts:267-315 | the scan and the insertion compute `Generation.AddSubgraph`: a new top-level cluster, or a child of the longest enclosing top-level cluster |
| Generation.IsCellAtPosition | src/generator.ts:383-395 | a cell is at a position exactly when its place is that position, the source position taking precedence over the layout position, and a cell with neither is never at one |
| Generation.HighlightedClassesSpec | src/generator.ts:374-378 | however many positions match, `highlight` is added once, and only when the cell's place is one of the positions |
| Generation.HighlightTableSpec | src/generator.ts:371-381 | highlighting changes only the class sets of top-level cells, and a cell gains `highlight` exactly when its place is one of the positions |
| Generation.CellIdsSource | src/generator.ts:328-360 | every id collected for a cell is the id of some cell of its subtree |
| Generation.CellsIdsSource | src/generator.ts:363-365 | every id collected for a list of cells is the id of a cell in the subtree of one of them |
| Generation.SectionsIdsSound | src/generator.ts:326-366 | every id collected for a table is the id of a cell in the subtree of one of its sections' cells |
| Generation.SectionCellsSource | src/graph/dot.ts:79-91 | every cell of the concatenated sections is a cell of one of the sections |
| Generation.SubtreeInSubtrees | src/graph/dot.ts:182-184 | the subtree of one of a list's cells is part of the list's subtrees |
| Generation.PlacedCellsCollected | src/generator.ts:328-360 | a cell of the subtree whose ancestors all have a place has its id collected |
| Generation.CellsIdsHas | src/generator.ts:363-365 | a cell's ids are among the ids of the list that holds it |
| Generation.FileReprOf | src/generator.ts:129 | the language's table maker keeps the file's id as the table's id |
| Generation.TableOf | src/generator.ts:129-133 | the table fails exactly when the language's table maker fails, with its error; highlighting keeps the table's id and caption |
| Generation.Tables | src/generator.ts:127-137 | a successful run holds one table per file |
| Generation.TablesSpec | src/generator.ts:127-137 | the tables succeed exactly when every file's table does, and then the i-th table is the i-th file's |
| Generation.TablesKeepError | src/generator.ts:127-137 | once a table raises, no later file changes the result |
| Generation.TablesIdsSound | src/generator.ts:127-137 | every collected id is the id of a cell of one of the tables, under that table's id |
| Generation.EndpointHasPort | src/graph/dot.ts:77-103 | an endpoint whose id was collected names a port that the DOT text of its own file's table declares |
| Generation.EndpointOfCell | src/generator.ts:317-320 | an endpoint whose id is a cell's id lies in that cell's table and names that cell's port |
| Generation.KeyLocation | src/generator.ts:148-150 | a stored key resolves exactly when the path read back from it is registered, and then to the file's id and the key's line and character |
| Generation.FlatMapMembers | src/generator.ts:154-166 | an element of the concatenated lists belongs to the list of one of the inputs, and the other way round |
| Generation.CallerEdgesSpec | src/generator.ts:154-166 | an edge is drawn to the entry exactly for each caller that resolves to a collected cell, and it carries no class |
| Generation.CalleeEdgesSpec | src/generator.ts:181-193 | an edge is drawn from the entry exactly for each callee that resolves to a collected cell, and it carries no class |
| Generation.CallerEdgesSound | src/generator.ts:154-166 | every caller edge joins two collected cells, carries no class and ends at the entry |
| Generation.CalleeEdgesSound | src/generator.ts:181-193 | every callee edge joins two collected cells, carries no class and starts at the entry |
| Generation.IncomingEdgesSound | src/generator.ts:146-170 | every incoming-call edge joins two collected cells and carries no class |
| Generation.OutgoingEdgesSound | src/generator.ts:173-197 | every outgoing-call edge joins two collected cells and carries no class |
| Generation.ImplementerEdgesSound | src/generator.ts:208-222 | every implementation edge of one entry joins two collected cells, carries exactly `impl` and ends at the interface |
| Generation.ImplEdgesSound | src/generator.ts:202-224 | every implementation edge joins two collected cells and carries exactly `impl` |
| Generation.ImplementerEdgesKeepError | src/generator.ts:208-222 | once an implementation lookup raises, later implementations do not change the result |
| Generation.ImplEdgesKeepError | src/generator.ts:202-224 | once an entry raises, later entries do not change the result |
| Generation.Entries | src/generator.ts:245-246 | one directory entry per file, in registration order, holding the normalised directory of its path and its id |
| Generation.DirGroupsValid | src/generator.ts:242-253 | the grouping yields a map with distinct keys |
| Generation.DirGroupsComplete | src/generator.ts:245-253 | every file's id is listed under its directory |
| Generation.DirGroupsSound | src/generator.ts:245-253 | every id listed under a directory belongs to a file in that directory |
| Generation.DirGroupsNonEmpty | src/generator.ts:247-252 | every directory of the map lists at least one file |
| Generation.Labels | src/generator.ts:252 | the node labels are the decimal strings of the ids, in order |
| Generation.Slashed | src/generator.ts:268 | the normalised path with every backslash turned into `/` and every other character kept in place |
| Generation.AncestorScan | src/generator.ts:271-280 | the candidate the scan keeps encloses the directory and its prefix is that cluster's normalised title; with no candidate the prefix is empty |
| Generation.AncestorScanLongest | src/generator.ts:274-280 | the scan finds a candidate whenever some title encloses the directory, keeps the longest enclosing title, and the first among equally long ones |
| Generation.AddSubgraphTopLevel | src/generator.ts:282-296 | with no enclosing top-level title, the directory becomes a new last top-level cluster titled by its basename |
| Generation.AddSubgraphNested | src/generator.ts:297-314 | with an enclosing title, the directory becomes the last child of the longest enclosing top-level cluster, titled by the basename of the rest of the path, and no other cluster changes |
| Generation.AddSubgraphCount | src/generator.ts:267-315 | adding a directory always adds exactly one cluster, at some depth |
| Generation.ClusterCountAppend | src/generator.ts:296 | the cluster count of two lists together is the sum of their counts |
| Generation.ClusterCountReplace | src/generator.ts:313 | replacing one cluster changes the count by the difference in its children |
| Generation.ClustersUpToStep | src/generator.ts:256-262 | one more directory leaves the clusters as they are when it is skipped and adds its cluster otherwise |
| Generation.ClustersCount | src/generator.ts:256-262 | the clusters at every depth number exactly the directories that are not `/`, `.` or the root |
| Generation.RelativeTitleEncloses | src/generator.ts:276 | a title without a slash never encloses an absolute directory |
| Generation.SlashedAbsolute | src/generator.ts:268 | the normalised form of an absolute directory starts with a slash |
| Generation.AbsoluteDirTopLevel | src/generator.ts:282-296 | an absolute directory among basename-titled clusters always becomes a new top-level cluster |
| Generation.AbsoluteClustersTopLevel | src/generator.ts:256-262 | for absolute directories every cluster is top level and titled by a plain name |
| Generation.AbsolutePathsTopLevel | src/generator.ts:240-265 | when files are registered under absolute paths, the clusters never nest: clusters are titled by basenames, which never enclose an absolute directory |
| Generation.NotSupported | src/generator.ts:115 | the message reads `Language <name> not supported` and has no cause |
| Generation.BuildGraph | src/generator.ts:123-235 | a built graph carries the `graph` class, the directory clusters and one table per file in registration order; a failing table ends the build with its error |
| Generation.GraphOf | src/generator.ts:142-235 | building the edges fails exactly when an implementation lookup raises; otherwise the graph keeps the tables and the clusters |
| Generation.GraphOfEdgesSound | src/generator.ts:142-224 | every edge joins two collected cells, and carries no class for a call and exactly `impl` for an implementation |
| Generation.BuildGraphNodes | src/generator.ts:127-137 | the graph's i-th table is the i-th registered file's table, and it carries that file's id |
| Generation.BuildGraphEdgesSound | src/generator.ts:142-235 | every edge of a built graph joins two cells of its tables, and carries no class or exactly `impl` |
| Generation.DotSource | src/generator.ts:112-238 | an unregistered language gives the not-supported error; otherwise the result is decided by that language's table maker |
| Generation.DotSourceWith | src/generator.ts:226-237 | the DOT text exists exactly when the graph builds, and is then the serialization of that graph; otherwise it is the graph's error |
| Generation.EdgesJoinDeclaredPorts | src/graph/dot.ts:140-255 | when every edge joins collected cells, both ends of every edge name a port that the DOT text of their file's table declares |
| Generation.BuildGraphPortsDeclared | src/generator.ts:112-238 | every edge of a generated graph runs between two ports that its files' tables declare, so the DOT text never points at a missing cell |
| Dot.EscapeChar | src/graph/dot.ts:132-138 | a character other than `&`, `"`, `<` and `>` stands for itself, and no entity holds a quote or an angle bracket |
| Dot.EscapeHtmlAppend | src/graph/dot.ts:132-138 | escaping two strings together is escaping each and concatenating |
| Dot.EscapeHtmlClean | src/graph/dot.ts:132-138 | text without the four special characters is left unchanged |
| Dot.EscapeHtmlChar | src/graph/dot.ts:132-138 | escaping one character gives that character's entity |
| Dot.EscapeHtmlPerChar | src/graph/dot.ts:132-138 | the chain of four global replacements equals escaping each character on its own, because `&` is replaced first and no later stage rewrites an entity |
| Dot.EscapeHtmlSafe | src/graph/dot.ts:132-138 | escaped text holds no quote and no angle bracket, so it can sit inside a quoted attribute or an HTML-like label |
| Dot.UnescapeEscapeHtml | src/graph/dot.ts:132-138 | decoding the four entities gives back the original text: escaping loses nothing |
| Dot.UnescapeEach | src/graph/dot.ts:132-138 | the character-by-character escape is undone by decoding the entities |
| Dot.UnescapeEntity | src/graph/dot.ts:132-138 | decoding reads one character's entity back as that character and goes on |
| Dot.EscapeEachGrows | src/graph/dot.ts:132-138 | escaping never shortens text, and text with an ampersand grows and still holds one |
| Dot.EscapeHtmlNotIdempotent | src/graph/dot.ts:132-138 | escaping text that holds an ampersand a second time changes it again |
| Dot.ClassName | src/graph/dot.ts:259 | lower-casing a class and removing a `cssclass.` prefix gives the class's own value, since the value is lower case and has no dot |
| Dot.NoDotInValue | src/types/css-classes.ts:4-36 | no class value holds a dot, a space or a newline |
| Dot.ClassNames | src/graph/dot.ts:259 | one name per class, in order, each the class's value |
| Dot.CssClassesAttrLists | src/graph/dot.ts:257-260 | the class attribute is empty exactly when there are no classes; otherwise it is `class="…"` and splitting its value on spaces gives back every class name in order |
| Dot.CssClassesHrefLists | src/graph/dot.ts:262-265 | the href is empty exactly when there are no classes; otherwise it is `href="remove_me_url.…"` and splitting its value on dots gives back every class name in order |
| Dot.PortNameInjective | src/graph/dot.ts:151-153 | two positions name the same `line_character` port only when they are the same position |
| Dot.StylesAttr | src/graph/dot.ts:142-145 | the style attribute is empty exactly when there is no border and rounding is not true, and otherwise lists the border, then `STYLE="ROUNDED"`, separated by one space |
| Dot.CellTitle | src/graph/dot.ts:148 | a cell's label ends with its escaped title, after the bold icon when there is one |
| Dot.CellDots | src/graph/dot.ts:182-184 | one rendering per cell |
| Dot.CellDotsAt | src/graph/dot.ts:182-184 | the k-th rendering is the k-th cell's |
| Dot.LeafDotNames | src/graph/dot.ts:164-174 | a leaf row holds its port attribute and its table-qualified id |
| Dot.NestedTableHolds | src/graph/dot.ts:187-193 | a nested table holds its id, its header row and its children's rows |
| Dot.HeaderRowNames | src/graph/dot.ts:179 | a container's header row holds its port attribute |
| Dot.CellDotNamesPort | src/graph/dot.ts:140-204 | every cell's rendering, leaf or container, declares the cell's port and carries its table-qualified id |
| Dot.CellDotHoldsChild | src/graph/dot.ts:182-193 | a container renders each of its children inside itself |
| Dot.CellDotHoldsDescendant | src/graph/dot.ts:140-204 | a cell's rendering holds the rendering of every cell below it, at any depth |
| Dot.SectionCells | src/graph/dot.ts:79-91 | every top-level cell of every section is among the flattened cells |
| Dot.Subtree | src/graph/dot.ts:182-184 | a cell's subtree starts with the cell itself |
| Dot.SubtreesMember | src/graph/dot.ts:182-184 | every cell of a list's subtrees lies in the subtree of one of the list's cells |
| Dot.TableDotHoldsCell | src/graph/dot.ts:77-103 | every top-level cell is rendered inside its table's node |
| Dot.TableDotNamesPorts | src/graph/dot.ts:77-103 | every cell of a table, however deeply nested, appears in the table's node with its own port and its table-qualified id |
| Dot.QuotedNodes | src/graph/dot.ts:215 | each node id is wrapped in double quotes, in order |
| Dot.SubgraphDots | src/graph/dot.ts:213-239 | one rendering per cluster |
| Dot.SubgraphDotsAt | src/graph/dot.ts:213-239 | the k-th rendering is the k-th cluster's |
| Dot.SubgraphDotsEach | src/graph/dot.ts:213-239 | each cluster's rendering sits at the cluster's own index |
| Dot.SubgraphDotHolds | src/graph/dot.ts:226-238 | a cluster lists each of its node ids quoted and renders each nested cluster inside itself |
| Dot.EdgeAttrs | src/graph/dot.ts:249-252 | the attribute list is the edge id alone when the edge has no classes, and otherwise the id, a comma and the class attribute |
| Dot.EndpointNamesCell | src/graph/dot.ts:151-153 | an edge end names a cell's port exactly when its line and character are the cell's range start |
| Dot.EndpointOneLine | src/graph/dot.ts:247-248 | an endpoint reference holds no newline |
| Dot.EdgeAttrsOneLine | src/graph/dot.ts:249-252 | the attribute list of an edge holds no newline |
| Dot.EdgeDotOneLine | src/graph/dot.ts:246-255 | every edge is written on a single line |
| Dot.EdgeDots | src/graph/dot.ts:243 | one line per edge, in order |
| Dot.ProcessEdgesLines | src/graph/dot.ts:242-244 | splitting the edge block on newlines gives back exactly one line per edge, in order |
| Dot.TableDots | src/graph/dot.ts:77-103 | one node per table, in order |
| Dot.DotDocumentFrame | src/graph/dot.ts:106-129 | a document whose header opens a `digraph` block starts with `digraph {` and ends with `}` |
| Dot.DotDocumentHolds | src/graph/dot.ts:106-129 | the document holds the table block, the cluster block and the edge block |
| Dot.HeaderOpensGraph | src/graph/dot.ts:106-122 | the fixed defaults start with `digraph {` |
| Dot.DocumentHoldsTables | src/graph/dot.ts:103 | each table of the joined block lies in the document |
| Dot.DocumentHoldsClusters | src/graph/dot.ts:239 | each cluster of the joined block lies in the document |
| Dot.DocumentHoldsEdges | src/graph/dot.ts:243 | each edge line of the joined block lies in the document |
| Dot.GenerateDotSourceFrame | src/graph/dot.ts:68-130 | the output is one `digraph` block |
| Dot.GenerateDotSourceHoldsTables | src/graph/dot.ts:68-130 | the output holds every table of the graph |
| Dot.GenerateDotSourceHoldsClusters | src/graph/dot.ts:68-130 | the output holds every top-level cluster of the graph |
| Dot.GenerateDotSourceHoldsEdges | src/graph/dot.ts:68-130 | the output holds every edge of the graph |
| LangBase.CreateLanguageError | src/lang/base.ts:17-24 | the message is `<language>.<method>: <message>`, followed by ` (<cause message>)` exactly when there is a cause, and the cause is kept as the error's cause |
| LangBase.IsValidFileSpec | src/lang/base.ts:29-35 | a file is valid exactly when its path ends with one of the configured extensions, compared case-sensitively |
| LangBase.FileTitleStripsExtension | src/lang/base.ts:40-45 | the title followed by the extension is the file's basename: only the last extension is removed |
| LangBase.FileTitleOfPlain | src/lang/base.ts:40-45 | a file `dir/name.ext` is titled `name` |
| LangBase.BasenameIdempotent | src/lang/base.ts:42 | taking the basename of a basename changes nothing |
| LangBase.SymbolStyle | src/lang/base.ts:124-200 | every style has the `cell` class; interfaces alone get border 0; modules, packages, namespaces, interfaces, functions, methods and constructors are rounded; classes, enums and structs carry the `C`, `E` and `S` icons and the `type` class; interfaces, functions, methods, constructors and properties are clickable; every other kind has only `cell` |
| LangBase.SymbolTitle | src/lang/base.ts:205-207 | the title is the raw symbol name |
| LangBase.Filter | src/lang/base.ts:51 | the kept symbols are exactly the accepted ones, and no more than the input |
| LangBase.KeptChildren | src/lang/base.ts:80-81 | the children kept are children of the symbol |
| LangBase.FileRepr | src/lang/base.ts:50-65 | a failing title fails the table with its error; otherwise the table has the file's id, the title as caption, the `module` class and one section `<id>_main` labelled `Main` holding the top-level cells |
| LangBase.SymbolReprUsesSelection | src/lang/base.ts:70-91 | a cell is titled with the raw name, placed at its layout position, spans the selection range and not the full range, and takes the language's style for the kind |
| LangBase.ChildrenOfSymbol | src/lang/base.ts:79-82 | an interface keeps all its children and any other symbol only the accepted ones; the i-th kept child sits at row i, one column right of its parent |
| LangBase.FilteredChildrenAccepted | src/lang/base.ts:81 | every kept child of a non-interface symbol is a child that the filter accepts |
| LangJava.ShouldFilterOutFile | src/lang/java.ts:22-42 | an empty path raises the language error wrapping `Invalid file path: path is empty`; otherwise a file is skipped exactly when its lower-cased basename is a test, suite, `package-info.java` or `module-info.java` name |
| LangJava.SkippedNamesAreJava | src/lang/java.ts:28-34 | every skipped name is a `.java` file |
| LangJava.FindSourceRoot | src/lang/java.ts:214 | the index is that of the first `src`, `main` or `java` segment, or -1 when there is none |
| LangJava.FindSourceRootAfter | src/lang/java.ts:214 | with no root segment before it, the first root segment is found where it sits |
| LangJava.LayoutRoot | src/lang/java.ts:214 | in `prefix/root/packages/file` the root is found right after the prefix |
| LangJava.LayoutPackages | src/lang/java.ts:216 | the segments between the root and the file name are the package segments |
| LangJava.PackageOfLayout | src/lang/java.ts:211-226 | the package of `prefix/root/packages/file` is the package segments joined with dots |
| LangJava.MavenLayoutPackage | src/lang/java.ts:211-226 | in a `src/main/java` layout the first root found is `src`, so `main.java` leads the package name |
| LangJava.FileTitle | src/lang/java.ts:44-60 | an empty path raises the language error; any other path gives a title |
| LangJava.FileTitleQualified | src/lang/java.ts:44-60 | a class file under a source root is titled by its package, a dot and its class name |
| LangJava.ClassFileBasename | src/lang/java.ts:50 | removing `.java` from the basename of `dir/Name.java` gives `Name` |
| LangJava.SymbolStyle | src/lang/java.ts:62-122 | every style has the `cell` class; interfaces get border 0 and the `I` icon; packages, interfaces, functions, methods and constructors are rounded |
| LangJava.StyleAgreesWithBase | src/lang/java.ts:62-122 | the Java style differs from the shared one exactly for modules, namespaces, interfaces and structs |
| LangJava.AccessModifier | src/lang/java.ts:238-243 | the modifier is `private`, `protected` or `public`, checked in that order in the detail, or empty exactly when the detail holds none of them; it is `private` exactly when the member is private |
| LangJava.ModifiersRoundTrip | src/lang/java.ts:127-137 | the modifier string lists only keywords the detail holds, is empty exactly when there are none, and splitting it on spaces gives them back in order |
| LangJava.KeywordsHaveNoSpace | src/lang/java.ts:132-137 | no modifier keyword holds a space |
| LangJava.SymbolTitle | src/lang/java.ts:124-164 | packages read `package <name>`; constructors the access modifier, a space, the name and the detail; classes, interfaces, enums, methods and fields start with the modifiers and a space; any other kind is its raw name |
| LangJava.FilterNarrowsBase | src/lang/java.ts:166-194 | a kept Java symbol is never private, and apart from fields is kept by the shared filter too; every non-private field is kept |
| LangPython.ShouldFilterOutFile | src/lang/python.ts:21-42 | an empty path raises the language error; otherwise a file is skipped exactly when its lower-cased basename starts with `test_`, ends with `_test.py` or is `__init__.py` |
| LangPython.SkippedNamesAreTests | src/lang/python.ts:27-30 | every skipped name other than `__init__.py` is a test file name |
| LangPython.FileTitle | src/lang/python.ts:44-61 | an empty path raises the language error; any other path gives a title |
| LangPython.FileTitleAgreesWithBase | src/lang/python.ts:49 | for a `.py` file the title equals the shared title, and with `.py` appended it is the basename |
| LangPython.SymbolStyle | src/lang/python.ts:63-101 | every style has the `cell` class and no border; classes and properties are not rounded, every other kind is; classes carry `C` and properties `p`, without `clickable` |
| LangPython.SymbolTitle | src/lang/python.ts:103-131 | constructors read `def __init__`, functions and methods `def <name>`, classes `class <name>`; every title but a constructor's ends with the name |
| LangPython.FilterComparedWithBase | src/lang/python.ts:133-161 | a symbol Python keeps, other than an enum member, is kept by the shared filter; enum members are kept by Python but not by the shared filter |
| LangRust.ShouldFilterOutFile | src/lang/rust.ts:25-40 | an empty path raises the language error; otherwise a file is skipped exactly when its lower-cased basename starts with `test_`, ends with `_test.rs` or is `lib.rs` |
| LangRust.SkippedNamesAreTests | src/lang/rust.ts:31-32 | every skipped name other than `lib.rs` is a test file name |
| LangRust.FileTitle | src/lang/rust.ts:45-59 | an empty path raises the language error; any other path gives a title |
| LangRust.FileTitleAgreesWithBase | src/lang/rust.ts:51 | for a `.rs` file the title equals the shared title, and with `.rs` appended it is the basename |
| LangRust.SymbolStyle | src/lang/rust.ts:64-132 | every style has the `cell` class; border 0 exactly for interfaces; modules, interfaces, functions, methods and constructors are rounded |
| LangRust.StyleAgreesWithBase | src/lang/rust.ts:64-132 | the Rust style differs from the shared one exactly for packages, namespaces and properties |
| LangRust.SymbolTitle | src/lang/rust.ts:137-163 | every title ends with the name: `mod`, `fn` and `type` prefixes for modules, functions, interfaces and type parameters, `impl <detail> fn` for methods, the raw name for kinds without a prefix |
| LangRust.FilterNarrowsBase | src/lang/rust.ts:168-191 | a symbol Rust keeps is kept by the shared filter, and the only extra ones Rust drops are modules and functions whose lower-cased name holds `test` |
| LangGo.SymbolStyleAsWritten | src/lang/go.ts:51-80 | as written, every style is rounded with border 1, no icon, no `cell` class and at most one class |
| LangGo.AsWrittenFollowsNumbers | src/lang/go.ts:54-73 | as written, a kind is styled by the case numbered with its zero-based value |
| LangGo.AsWrittenMisstyles | src/lang/go.ts:54-73 | as written, a module gets no class, a method is styled as a type, and of the six kinds the comments name only constants get the intended class |
| LangGo.SymbolStyle | src/lang/go.ts:51-80 | the style the comments describe: rounded, border 1, no icon, no `cell` class, at most one class |
| LangGo.StyleFollowsComments | src/lang/go.ts:54-73 | each kind a comment names gets exactly the class of that comment's case, and every other kind gets none |
| LangGo.HighlightCell | src/lang/go.ts:82-89 | the cell gains the `highlight` class, keeps every class it had, gains no other class, and nothing else about it changes |
| LangGo.HighlightIdempotent | src/lang/go.ts:82-89 | highlighting twice is highlighting once |
| LangGo.VendoredFilesSkipped | src/lang/go.ts:91-93 | every path through a `vendor/` directory is skipped, and an empty path is kept without error |
| LangTypeScript.ValidFiles | src/lang/typescript.ts:6-16 | a TypeScript file is valid exactly when its path ends with `.ts` or `.tsx` |
| LangTypeScript.TitleDropsExtension | src/lang/typescript.ts:6-16 | `dir/name.ts` and `dir/name.tsx` are both titled `name` |
| Languages.IsValidFile | src/types/language.ts:34 | a path is valid for a language exactly when it ends with one of the extensions of that instance |
| Languages.FileTitle | src/types/language.ts:49 | only an empty path fails, and always for Python, Java and Rust; Go and TypeScript use the shared title, which never fails |
| Languages.FileRepr | src/lang/base.ts:50-65 | the table fails exactly when the language's title fails, with its error; otherwise it has the file's id, the title as caption, the `module` class and one section, whose cells match the accepted top-level symbols one for one, each styled by the language's `getSymbolStyle` for its kind (Go's switch as written) |
| Languages.GoCellsFollowSwitch | src/lang/go.ts:51-80 | a Go table is always built, and each top-level cell is styled by the switch as written on its kind's zero-based value, so a module cell has no class and a method cell has `type` |
| Languages.TopLevelCells | src/lang/base.ts:51-57 | the top-level cells are the accepted top-level symbols, in order, at rows 0, 1, ... of column 0 |
| Languages.JavaHidesPrivate | src/lang/java.ts:166-171 | a Java table never shows a private top-level member |
| Languages.EmptyPathFails | src/lang/base.ts:61 | Python, Java and Rust turn an empty path into their title error, while TypeScript still builds a table |
| LangRegistry.InitialLanguages | src/lang/index.ts:27-29 | at start-up exactly Python, Java and Rust are registered |
| LangRegistry.LanguageRegistry.constructor | src/lang/index.ts:27-29 | the registry starts with exactly the three start-up registrations |
| LangRegistry.LanguageRegistry.Register | src/lang/index.ts:16-18 | registering a name maps it to the language, replacing an earlier one, and leaves every other name as it was |
| LangRegistry.LanguageRegistry.Get | src/lang/index.ts:23-25 | a name resolves exactly when it is registered, and then to its language |
| LangRegistry.StartupLookups | src/lang/index.ts:23-29 | an example: after start-up `Python` resolves, while `python`, `Go` and `TypeScript` do not |
| LangRegistry.RegisterThenGet | src/lang/index.ts:16-25 | an example: after registering a name it resolves to the new language, and another name resolves as before |
| SingleFile.SetAdd | src/generator/index.ts:113 | adding to a node set keeps every node it had, in order, adds the new one, and never creates a duplicate |
| SingleFile.DirnameFixedPoints | src/generator/index.ts:116-117 | the only directories that are their own `dirname`, where the upward walk stops, are `/` and `.` |
| SingleFile.Ancestors | src/generator/index.ts:107-120 | the directories the walk visits start at the given one, step each time to the `dirname`, and end at the first fixed point |
| SingleFile.AncestorsEnd | src/generator/index.ts:116-119 | the walk from an absolute directory ends at `/`, and from a relative one at `.` |
| SingleFile.DirnameRelative | src/generator/index.ts:116 | the `dirname` of a relative path is relative |
| SingleFile.AddToAncestors | src/generator/index.ts:107-120 | the walk is one step at the directory, then the walk from its parent unless the directory is its own parent |
| SingleFile.AddToAllSpec | src/generator/index.ts:107-120 | after the walk, exactly the visited directories and those already present have sets; each visited set gains the node, and every other set is unchanged |
| SingleFile.AddToAllAt | src/generator/index.ts:107-120 | the same, for one directory at a time |
| SingleFile.Slash | src/generator/index.ts:163-164 | every backslash becomes `/` and every other character stays in place, so the length is kept |
| SingleFile.SlashPlain | src/generator/index.ts:163-164 | a path without backslashes is left as it is |
| SingleFile.FirstEnclosing | src/generator/index.ts:161-166 | no index exactly when no sibling's title encloses the directory; otherwise the least index whose title encloses it |
| SingleFile.Find | src/generator/index.ts:161-166 | the scan over the siblings returns the first enclosing sibling, or none |
| SingleFile.NestExactPlacement | src/generator/index.ts:159-192 | with no enclosing title the new cluster is appended with the full directory as title; otherwise it goes inside the first enclosing sibling, which keeps its title and nodes, and every other sibling is unchanged |
| SingleFile.NestExactInside | src/generator/index.ts:185-191 | inside the first enclosing sibling the step recurses with the directory's path after that sibling's title and `/` |
| SingleFile.NestExactCount | src/generator/index.ts:159-192 | each call adds exactly one cluster, at whatever depth |
| SingleFile.NestExactKeepsLists | src/generator/index.ts:168-191 | when every cluster lists the same labels as the new one, they all still do afterwards |
| SingleFile.FirstNotLongest | src/generator/index.ts:161-166 | an example: with clusters `a` and `a/b`, the directory `a/b/c` is nested under `a` as `b/c`: the first enclosing title wins over the longest |
| SingleFile.Label | src/generator/index.ts:172 | a node is shown by its recorded label when that is present and non-empty, and by its id otherwise |
| SingleFile.DirMapStep | src/generator/index.ts:131-145 | each directory either leaves the map unchanged (the file's own directory, or an empty relative path) or puts its node set under its relative path |
| SingleFile.DirMapSpec | src/generator/index.ts:131-145 | the map holds exactly the relative paths of the kept directories, each with the node set of the last kept directory that has that path |
| SingleFile.DirMapAt | src/generator/index.ts:144 | an entry of the map comes from the last kept directory with its path |
| SingleFile.DirMapHas | src/generator/index.ts:144 | every kept directory's relative path is in the map |
| SingleFile.DirMapGrows | src/generator/index.ts:131-145 | a later directory never removes a path from the map |
| SingleFile.ClustersList | src/generator/index.ts:148-154 | when every entry lists the same labels, every cluster built from them lists those labels |
| SingleFile.TableList | src/generator/index.ts:66 | the graph's nodes are the stored tables, one per key, in insertion order |
| SingleFile.FreshGraph | src/generator/index.ts:51-102 | a fresh generator's graph has the file's one table, with id 1, no edges, and clusters that each list the file's title, or `1` when the title is empty |
| SingleFile.FreshGraphOf | src/generator/index.ts:51-70 | the same for any table and title |
| SingleFile.UniformClusters | src/generator/index.ts:125-157 | when every directory holds just node `1`, every cluster lists that node's label |
| SingleFile.FreshSetsHoldOne | src/generator/index.ts:107-120 | walking from no sets leaves every directory's set holding just the node |
| SingleFile.DirMapUniform | src/generator/index.ts:131-145 | when every directory has the same node set, so does every entry of the map |
| SingleFile.LabelOfOne | src/generator/index.ts:88-89 | the file's node is shown by its title, or by `1` when the title is empty |
| SingleFile.GroupRelative | src/generator/index.ts:131-145 | the first loop builds exactly the map specified by `DirMapUpTo` |
| SingleFile.GroupDirectory | src/generator/index.ts:132-144 | one round of that loop extends the map by one directory as `DirMapUpTo` specifies |
| SingleFile.GraphGenerator.constructor | src/generator/index.ts:42-46 | the generator keeps the language, path and symbols, and starts with no tables, sets or labels |
| SingleFile.GraphGenerator.Generate | src/generator/index.ts:51-70 | the graph fails exactly when the language's title fails, with its error and no state change; otherwise the file's table and label are stored under `1`, the node joins its directory and every ancestor, and the graph is the stored tables, no edges and the directory clusters |
| SingleFile.GraphGenerator.ProcessSymbols | src/generator/index.ts:75-102 | the table fails exactly when the title fails; otherwise the table has id 1 and is stored under `1`, the title is the label of `1`, and the node joins its directory and every ancestor |
| SingleFile.GraphGenerator.AddToSubgraph | src/generator/index.ts:107-120 | the node sets after the call are those of the upward walk from the directory; tables and labels are unchanged |
| SingleFile.GraphGenerator.BuildDirectoryStructure | src/generator/index.ts:125-157 | the clusters are those of the kept directories under their relative paths, one cluster per map entry |
| SingleFile.GraphGenerator.ClusterAll | src/generator/index.ts:148-154 | the second loop nests one cluster per map entry, in order |
| SingleFile.GraphGenerator.AddSubgraphExact | src/generator/index.ts:159-192 | the result is the nesting step over the labelled nodes, with exactly one more cluster |

## Left out

- Console logging in both generators is left out: it has no effect on the result.
- The tables of both generators are JavaScript `Map`s. They are modelled as an insertion-ordered map value (`OrderedMaps.OMap`) that the methods reassign, not as a shared mutable object.
- A JavaScript `Set<string>` is modelled as an insertion-ordered, duplicate-free sequence.
- `highlights` is a set of freshly built `[line, character]` arrays. Those never compare equal, so the model appends every position to a sequence and keeps repeats.
- The edge set of the project-wide generator holds freshly built objects, so it is a sequence that keeps repeats for the same reason.
- Nested subgraph arrays and class sets are updated in place in the source and shared by aliasing. The model returns the updated values instead. This covers `addSubgraphExact` pushing into an ancestor's `subgraphs`, `highlightCells`, and the Go `highlightCell`, which changes the shared class set. Who else observes a shared object after the update is not captured.
- `addToSubgraph` creates an empty set, stores it, then adds the node. The model stores the filled set in one step. No observer sees the difference.
- Node's `path` functions (`dirname`, `basename`, `extname`, `relative`, `resolve`, `join`) are modelled for `/`-separated paths only. Backslash separators and Windows drive letters are not modelled. Java's `path.sep` is taken to be `/`.
- `path.relative` resolves relative paths against the process's working directory. That directory is a parameter (`cwd`) rather than read from the process.
- `decodeURIComponent` is modelled as UTF-8 decoding of `%XX` escapes. A stray continuation byte is rejected as malformed, and so is a short, overlong, surrogate or out-of-range sequence. One difference remains: a code point above U+FFFF becomes one Dafny `char`, where JavaScript holds two UTF-16 code units.
- `toLowerCase()` is modelled by `Strings.ToLower`, which folds only the ASCII letters A to Z. The source applies full Unicode case mapping. The only place this shows is the Java file filter: a name spelled with a non-ASCII capital, such as the Kelvin sign in `pac\u212Aage-info.java`, is skipped by the source and kept by the model.
- `NaN` arises in the model only from `parseInt` of a key part that is not a number. No other floating-point behaviour of JavaScript numbers is modelled.
- From the protocol types, `isSymbolTag`, `createUri` and `createCallHierarchyItem` are not modelled. They only build or check editor objects that no core operation reads.
- Writing the DOT source to disk (`saveDotSource`) is not part of this model.
- Rendering to SVG through the WebAssembly Graphviz build (`renderToSvg`, `wasm.ts`) is not part of this model.
- The editor extension that calls into the core is not part of this model.
- `getText`, `extractSymbols`, `getImplementations` and `getSymbols` are stubs in the language classes and are left out.
- The Java and Python `highlightCell(symbol)` overrides have empty bodies and are left out.
- The language-specific `getSymbolTitle` overrides are modelled (`LangJava.SymbolTitle`, `LangPython.SymbolTitle`, `LangRust.SymbolTitle`), but no model table uses them. The table builder calls the shared representation, which shows `symbol.name`, exactly as the source does.
- The project-wide generator skips a file only when `isValidFile` rejects it. It never calls a language's own `shouldFilterOutFile`. The model follows that code, and the language filters are modelled and proved separately.
- The `try`/`catch` blocks that rewrap an exception thrown by code that cannot throw are not modelled. Every exception the core can throw is modelled as a `Result` error:
  - the empty-path errors of `getFileTitle` and `shouldFilterOutFile` in the Python, Java and Rust rules;
  - `Locations.UriMalformed`, from percent-decoding a malformed URI. It reaches callers through `Generator.GraphGenerator.AddFile` and the implementation-edge lookup;
  - `Generation.NotSupported`, for a language that is not registered;
  - the errors of the protocol constructors: invalid line or character number, invalid start or end position, invalid URI and invalid range.
- LangGo.SymbolStyle: its own `ensures` states only the fixed parts of the style. Which class each kind gets is stated by `LangGo.StyleFollowsComments`.

## Findings

| source | as written | input that shows it | evidently intended | confidence | as-written member | corrected member |
|---|---|---|---|---|---|---|
| src/lang/go.ts:54-73 | the `switch` compares the editor's zero-based kind values with 2, 5, 6, 12, 13 and 14. Five of them are the Language Server Protocol numbers of the kinds their comments name. Case 6, commented as an interface, matches neither numbering: an interface is 11 in the protocol and 10 in the editor's enum, while 6 is Method in the protocol and Property in the editor's enum | a module (value 1) gets no class, and a method (value 5) gets the `type` class meant for classes | each kind the comments name (module, class, interface, function, variable, constant) gets the class of its comment's case | not executed | LangGo.AsWrittenMisstyles | LangGo.StyleFollowsComments |

The tables of both generators are built with the switch as written (`LangGo.SymbolStyleAsWritten`, through `Languages.StyleOf`), because that is what the program draws. The corrected style `LangGo.SymbolStyle` is defined and proved beside it.
