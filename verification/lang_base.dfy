/** The behaviour every language shares: errors, file validity, file titles,
    the default symbol filter and style, and the recursive construction of a
    file's table from its symbol outline. */
module LangBase {
  import opened Wrappers
  import opened Strings
  import opened Paths
  import opened VsTypes
  import opened CssClasses
  import opened GraphTypes

  datatype LanguageConfig = LanguageConfig(
    id: string,
    name: string,
    extensions: seq<string>,
    languageId: string,
    filePatterns: seq<string>)

  /** `createLanguageError(method, message, cause)`: the message names the
      language and the method; a cause adds its message in parentheses and is
      kept as the error's cause. */
  function CreateLanguageError(name: string, member: string, message: string, cause: Option<Error>): (e: Error)
    ensures e.cause == cause
    ensures StartsWith(e.message, name + "." + member + ": " + message)
    ensures cause.None? ==> e.message == name + "." + member + ": " + message
    ensures cause.Some? ==> EndsWith(e.message, " (" + cause.value.message + ")")
  {
    var prefix := name + "." + member + ": " + message;
    var suffix := if cause.Some? then " (" + cause.value.message + ")" else "";
    assert (prefix + suffix)[..|prefix|] == prefix;
    assert (prefix + suffix)[|prefix + suffix| - |suffix|..] == suffix;
    Error(prefix + suffix, cause)
  }

  /** The error every language throws for an empty path, wrapped by
      `CreateLanguageError`. */
  function EmptyPathError(name: string, member: string, message: string): Error {
    CreateLanguageError(name, member, message, Some(Error("Invalid file path: path is empty", None)))
  }

  /** `extensions.some(ext => p.endsWith(ext))`, in order. */
  function AnyExtension(extensions: seq<string>, p: string): bool {
    if |extensions| == 0 then false
    else EndsWith(p, extensions[0]) || AnyExtension(extensions[1..], p)
  }

  /** `isValidFile(p)` */
  function IsValidFile(config: LanguageConfig, p: string): bool {
    AnyExtension(config.extensions, p)
  }

  /** A file is valid exactly when it ends with one of the configured
      extensions, compared case-sensitively. */
  lemma {:induction false} IsValidFileSpec(extensions: seq<string>, p: string)
    ensures AnyExtension(extensions, p) <==> exists i | 0 <= i < |extensions| :: EndsWith(p, extensions[i])
  {
    if |extensions| > 0 {
      IsValidFileSpec(extensions[1..], p);
      if AnyExtension(extensions[1..], p) {
        var i :| 0 <= i < |extensions[1..]| && EndsWith(p, extensions[1..][i]);
        assert EndsWith(p, extensions[i + 1]);
      }
      if exists i | 0 <= i < |extensions| :: EndsWith(p, extensions[i]) {
        var i :| 0 <= i < |extensions| && EndsWith(p, extensions[i]);
        if i > 0 {
          assert extensions[1..][i - 1] == extensions[i];
        }
      }
    }
  }

  /** `getFileTitle(p)`: the basename without its last extension. */
  function FileTitle(p: string): string {
    BasenameExt(p, Extname(Basename(p)))
  }

  lemma BasenameIdempotent(p: string)
    ensures Basename(Basename(p)) == Basename(p)
  {
    var b := Basename(p);
    assert StripTrailingSlashes(b) == b;
  }

  lemma BasenameOfPlain(q: string)
    requires '/' !in q
    ensures Basename(q) == q
  {
    assert StripTrailingSlashes(q) == q;
  }

  /** An extension is a proper, dot-led suffix of the basename. */
  lemma ExtnameSuffix(p: string)
    ensures var b := Basename(p); var e := Extname(p);
      e == "" || (EndsWith(b, e) && |e| < |b| && e[0] == '.' && '/' !in e)
  {
    var b := Basename(p);
    var d := LastIndexOf(b, '.');
    if d > 0 && b != ".." {
      assert forall x | x in b[d..] :: x in b;
    }
  }

  lemma BasenameExtStrips(p: string, e: string)
    requires e != "" && EndsWith(Basename(p), e) && |e| < |Basename(p)| && '/' !in e
    ensures BasenameExt(p, e) + e == Basename(p)
  {
    var b := Basename(p);
    if e == p {
      BasenameOfPlain(e);
    }
    assert b[..|b| - |e|] + e == b;
  }

  /** The title followed by the extension gives back the basename. */
  lemma FileTitleStripsExtension(p: string)
    ensures FileTitle(p) + Extname(p) == Basename(p)
  {
    BasenameIdempotent(p);
    assert Extname(Basename(p)) == Extname(p);
    ExtnameSuffix(p);
    if Extname(p) != "" {
      BasenameExtStrips(p, Extname(p));
    }
  }

  /** The extension of a plain `name.ext` is `.ext`. */
  lemma ExtnameOfPlain(name: string, ext: string)
    requires name != "" && '/' !in name && '.' !in name
    requires '/' !in ext && '.' !in ext
    ensures '/' !in name + "." + ext
    ensures Extname(name + "." + ext) == "." + ext
  {
    var file := name + "." + ext;
    BasenameOfPlain(file);
    LastIndexOfAfter(name, '.', ext);
    assert file[0] == name[0];
    assert file[|name|..] == "." + ext;
  }

  lemma FileTitleFromParts(p: string, name: string, e: string)
    requires Basename(p) == name + e && Extname(p) == e
    ensures FileTitle(p) == name
  {
    FileTitleStripsExtension(p);
    var t := FileTitle(p);
    assert t + e == name + e;
    assert t == (t + e)[..|t|];
  }

  /** The title of `dir/name.ext`, for a dot-free name and a dot-free
      extension, is `name`. */
  lemma FileTitleOfPlain(dir: string, name: string, ext: string)
    requires name != "" && '/' !in name && '.' !in name
    requires '/' !in ext && '.' !in ext
    ensures FileTitle(dir + "/" + name + "." + ext) == name
  {
    var file := name + "." + ext;
    var p := dir + "/" + file;
    assert p == dir + "/" + name + "." + ext;
    var e := "." + ext;
    assert file == name + e;
    ExtnameOfPlain(name, ext);
    BasenameAfterSlash(dir, file);
    BasenameOfPlain(file);
    assert Extname(p) == e;
    FileTitleFromParts(p, name, e);
  }

  /** `filterSymbol`: constants, variables, fields and enum members are left out. */
  predicate FilterSymbol(s: DocumentSymbol) {
    !(s.kind == Constant || s.kind == Variable || s.kind == Field || s.kind == EnumMember)
  }

  /** `getSymbolStyle(kind)` */
  function SymbolStyle(kind: SymbolKind): (st: Style)
    ensures CssClass.Cell in st.classes
    ensures kind == SymbolKind.Interface ==> st.border == Some(0)
    ensures kind != SymbolKind.Interface ==> st.border == None
    ensures st.rounded == Some(kind in {SymbolKind.Module, Package, Namespace, SymbolKind.Interface, SymbolKind.Function, SymbolKind.Method, SymbolKind.Constructor})
    ensures kind == Class ==> st.icon == Some("C")
    ensures kind == Enum ==> st.icon == Some("E")
    ensures kind == Struct ==> st.icon == Some("S")
    ensures kind !in {Class, Enum, Struct} ==> st.icon == None
    ensures Clickable in st.classes <==> kind in {SymbolKind.Interface, SymbolKind.Function, SymbolKind.Method, SymbolKind.Constructor, SymbolKind.Property}
    ensures Type in st.classes <==> kind in {Class, Enum, Struct}
    ensures |st.classes| == 1 <==> kind !in {SymbolKind.Module, Package, Namespace, SymbolKind.Interface, SymbolKind.Function, SymbolKind.Method, SymbolKind.Constructor, SymbolKind.Property, Class, Enum, Struct}
  {
    match kind
    case Module | Package | Namespace => MakeStyle([CssClass.Cell, CssClass.Module], Some(true), None, None)
    case Interface => MakeStyle([CssClass.Cell, CssClass.Interface, Clickable], Some(true), Some(0), None)
    case Function => MakeStyle([CssClass.Cell, CssClass.Function, Clickable], Some(true), None, None)
    case Method => MakeStyle([CssClass.Cell, CssClass.Method, Clickable], Some(true), None, None)
    case Constructor => MakeStyle([CssClass.Cell, CssClass.Constructor, Clickable], Some(true), None, None)
    case Property => MakeStyle([CssClass.Cell, CssClass.Property, Clickable], Some(false), None, None)
    case Class => MakeStyle([CssClass.Cell, Type], Some(false), None, Some("C"))
    case Enum => MakeStyle([CssClass.Cell, Type], Some(false), None, Some("E"))
    case Struct => MakeStyle([CssClass.Cell, Type], Some(false), None, Some("S"))
    case _ => MakeStyle([CssClass.Cell], Some(false), None, None)
  }

  /** `getSymbolTitle(symbol)`: the raw name. */
  function SymbolTitle(s: DocumentSymbol): (t: string)
    ensures t == s.name
  {
    s.name
  }

  /** `symbols.filter(keep)`, in order. */
  function Filter(keep: DocumentSymbol -> bool, symbols: seq<DocumentSymbol>): (r: seq<DocumentSymbol>)
    ensures |r| <= |symbols|
    ensures forall x | x in r :: x in symbols && keep(x)
    ensures forall x | x in symbols && keep(x) :: x in r
  {
    if |symbols| == 0 then []
    else (if keep(symbols[0]) then [symbols[0]] else []) + Filter(keep, symbols[1..])
  }

  /** The children `symbolRepr` keeps: all of an interface's, otherwise the
      ones the filter accepts. */
  function KeptChildren(keep: DocumentSymbol -> bool, s: DocumentSymbol): (r: seq<DocumentSymbol>)
    ensures forall x | x in r :: x in s.children
  {
    if s.kind == SymbolKind.Interface then s.children else Filter(keep, s.children)
  }

  function CoordOf(p: Position): Coord {
    Coord(p.line, p.character)
  }

  /** `symbolRepr(fileId, symbol, position)`: the cell is titled with the raw
      name, placed at `position`, spans the selection range, and holds the
      kept children at rows 0, 1, ... one column further right. */
  function SymbolRepr(keep: DocumentSymbol -> bool, style: SymbolKind -> Style, s: DocumentSymbol, pos: CellPosition): (c: Cell)
    decreases s
  {
    var kept := KeptChildren(keep, s);
    assert forall i | 0 <= i < |kept| :: kept[i] in s.children;
    GraphTypes.Cell(
      s.name,
      style(s.kind),
      seq(|kept|, i requires 0 <= i < |kept| => SymbolRepr(keep, style, kept[i], CellPosition(i, pos.col + 1))),
      Some(pos),
      Some(CoordOf(s.selectionRange.start)),
      Some(CoordOf(s.selectionRange.end)))
  }

  /** The cells of the top-level symbols the filter keeps, at rows 0, 1, ... of column 0. */
  function TopCells(keep: DocumentSymbol -> bool, style: SymbolKind -> Style, symbols: seq<DocumentSymbol>): (cells: seq<Cell>)
  {
    var kept := Filter(keep, symbols);
    seq(|kept|, i requires 0 <= i < |kept| => SymbolRepr(keep, style, kept[i], CellPosition(i, 0)))
  }

  function NatString(n: nat): string {
    JsNumbers.NatToString(n)
  }

  /** `fileRepr(file)`: one section `<id>_main` labelled `Main`, titled by the
      language's file title, which may fail. */
  function FileRepr(keep: DocumentSymbol -> bool, style: SymbolKind -> Style, title: Result<string, Error>, file: FileOutline): (r: Result<TableNode, Error>)
    ensures title.Err? ==> r == Err(title.error)
    ensures title.Ok? ==> (r.Ok? && r.value.id == file.id && r.value.caption == title.value
      && r.value.cssClass == Some(CssClass.Module)
      && r.value.sections == [TableSection(NatString(file.id) + "_main", "Main", TopCells(keep, style, file.symbols))])
  {
    var section := TableSection(NatString(file.id) + "_main", "Main", TopCells(keep, style, file.symbols));
    match title
    case Err(e) => Err(e)
    case Ok(t) => Ok(TableNode(file.id, t, [section], Some(CssClass.Module)))
  }

  /** Cells are titled with the raw symbol name and span the selection range,
      never the full range. */
  lemma SymbolReprUsesSelection(keep: DocumentSymbol -> bool, style: SymbolKind -> Style, s: DocumentSymbol, pos: CellPosition)
    ensures SymbolRepr(keep, style, s, pos).title == s.name
    ensures SymbolRepr(keep, style, s, pos).rangeStart == Some(Coord(s.selectionRange.start.line, s.selectionRange.start.character))
    ensures SymbolRepr(keep, style, s, pos).rangeEnd == Some(Coord(s.selectionRange.end.line, s.selectionRange.end.character))
    ensures SymbolRepr(keep, style, s, pos).position == Some(pos)
    ensures SymbolRepr(keep, style, s, pos).style == style(s.kind)
  {
  }

  /** An interface keeps all its children; any other symbol keeps exactly the
      children the filter accepts. The child at index `i` sits at row `i`,
      one column right of its parent. */
  lemma ChildrenOfSymbol(keep: DocumentSymbol -> bool, style: SymbolKind -> Style, s: DocumentSymbol, pos: CellPosition)
    ensures var c := SymbolRepr(keep, style, s, pos);
      var kept := if s.kind == SymbolKind.Interface then s.children else Filter(keep, s.children);
      |c.children| == |kept|
      && forall i | 0 <= i < |kept| :: c.children[i].title == kept[i].name
           && c.children[i].position == Some(CellPosition(i, pos.col + 1))
  {
  }

  /** Every child cell of a non-interface symbol comes from a child the filter accepts. */
  lemma FilteredChildrenAccepted(keep: DocumentSymbol -> bool, s: DocumentSymbol)
    requires s.kind != SymbolKind.Interface
    ensures forall x | x in KeptChildren(keep, s) :: keep(x) && x in s.children
  {
  }
}
