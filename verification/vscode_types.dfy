/** The editor API values the generator consumes: symbol kinds, positions,
    document symbols, URIs, call-hierarchy items and locations. */
module VsTypes {

  /** The editor's symbol kinds, in the order of their numeric values (File = 0). */
  datatype SymbolKind =
    | File | Module | Namespace | Package | Class | Method | Property | Field
    | Constructor | Enum | Interface | Function | Variable | Constant | String
    | Number | Boolean | Array | Object | Key | Null | EnumMember | Struct
    | Event | Operator | TypeParameter

  /** The numeric value of a kind in the editor API (zero-based). */
  function KindValue(k: SymbolKind): (n: nat)
    ensures n <= 25
  {
    match k
    case File => 0 case Module => 1 case Namespace => 2 case Package => 3
    case Class => 4 case Method => 5 case Property => 6 case Field => 7
    case Constructor => 8 case Enum => 9 case Interface => 10 case Function => 11
    case Variable => 12 case Constant => 13 case String => 14 case Number => 15
    case Boolean => 16 case Array => 17 case Object => 18 case Key => 19
    case Null => 20 case EnumMember => 21 case Struct => 22 case Event => 23
    case Operator => 24 case TypeParameter => 25
  }

  /** Zero-based line and character. */
  datatype Position = Position(line: nat, character: nat)

  datatype Range = Range(start: Position, end: Position)

  datatype DocumentSymbol = DocumentSymbol(
    name: string,
    detail: string,
    kind: SymbolKind,
    range: Range,
    selectionRange: Range,
    children: seq<DocumentSymbol>)

  /** A URI as the generator reads it: its file-system path, its path
      component and its `toString()` rendering, all computed by the editor. */
  datatype Uri = Uri(fsPath: string, path: string, text: string)

  datatype CallHierarchyItem = CallHierarchyItem(
    name: string,
    kind: SymbolKind,
    uri: Uri,
    range: Range,
    selectionRange: Range)

  datatype IncomingCall = IncomingCall(from: CallHierarchyItem, fromRanges: seq<Range>)

  datatype OutgoingCall = OutgoingCall(to: CallHierarchyItem, fromRanges: seq<Range>)

  datatype Location = Location(uri: Uri, range: Range)
}
