/** The location helpers of the single-file generator's types: a location
    built from a position, and lookups of a location or a call item by the
    raw path, with no URI canonicalisation. */
module LocationIds {
  import opened Wrappers
  import opened JsNumbers
  import opened OrderedMaps
  import opened VsTypes
  import opened GraphTypes
  import Locations

  /** An item's `uri`, which these helpers accept either as a string or as a URI object. */
  datatype ItemUri = TextUri(text: string) | ObjectUri(uri: Uri)

  datatype ItemRef = ItemRef(uri: ItemUri, range: Range)

  /** `SymbolLocation.fromPosition`: line and character copied unchanged. */
  function FromPosition(path: string, p: Position): (loc: Locations.SymbolLocation)
    ensures loc.path == path && loc.line == Int(p.line) && loc.character == Int(p.character)
  {
    Locations.SymbolLocation(path, Int(p.line), Int(p.character))
  }

  /** `toLocationId(files)` on a location: the file under the raw path, or undefined. */
  function ToLocationId(loc: Locations.SymbolLocation, files: OMap<string, FileOutline>): (r: Option<LocId>)
    ensures r.Some? <==> loc.path in files.values
    ensures r.Some? ==> r.value == LocId(files.values[loc.path].id, loc.line, loc.character)
  {
    match files.Get(loc.path)
    case None => None
    case Some(file) => Some(LocId(file.id, loc.line, loc.character))
  }

  /** The lookup key of an item: the string itself, or the URI's `path`. */
  function ItemKey(u: ItemUri): string {
    match u
    case TextUri(t) => t
    case ObjectUri(uri) => uri.path
  }

  /** The free `toLocationId(item, files)`: the file under the item's key,
      at the start of the item's range. */
  function ItemToLocationId(item: ItemRef, files: OMap<string, FileOutline>): (r: Option<LocId>)
    ensures r.Some? <==> ItemKey(item.uri) in files.values
    ensures r.Some? ==> r.value == LocId(files.values[ItemKey(item.uri)].id, Int(item.range.start.line), Int(item.range.start.character))
  {
    match files.Get(ItemKey(item.uri))
    case None => None
    case Some(file) => Some(LocId(file.id, Int(item.range.start.line), Int(item.range.start.character)))
  }

  /** Unlike the project-wide resolution, a `file:` path is not decoded here:
      a registered plain path is not found through its URI spelling. */
  lemma RawPathNotCanonicalised(p: string, files: OMap<string, FileOutline>, pos: Position)
    requires '%' !in p && p in files.values && "file://" + p !in files.values
    ensures ToLocationId(FromPosition("file://" + p, pos), files).None?
    ensures Locations.LocationId(FromPosition("file://" + p, pos), files).Ok?
    ensures Locations.LocationId(FromPosition("file://" + p, pos), files).value.Some?
  {
    Locations.FsPathOfFileUri(p);
  }
}
