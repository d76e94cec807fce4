/** Rust rules: test files and the crate root are skipped, titles drop the
    `.rs` extension, test modules and functions are left out. */
module LangRust {
  import opened Wrappers
  import opened Strings
  import opened Paths
  import opened VsTypes
  import opened CssClasses
  import opened GraphTypes
  import LangBase

  const Config := LangBase.LanguageConfig("rust", "Rust", [".rs"], "rust", ["*.rs"])

  /** A lower-cased file name that marks a test file or the crate root. */
  predicate SkippedName(f: string) {
    StartsWith(f, "test_") || EndsWith(f, "_test.rs") || f == "lib.rs"
  }

  /** `shouldFilterOutFile(p)`: an empty path fails. */
  function ShouldFilterOutFile(p: string): (r: Result<bool, Error>)
    ensures r.Err? <==> p == ""
    ensures r.Err? ==> r.error == LangBase.EmptyPathError("Rust", "shouldFilterOutFile", "Failed to check file filter")
    ensures r.Ok? ==> (r.value <==> SkippedName(ToLower(Basename(p))))
  {
    if p == "" then Err(LangBase.EmptyPathError("Rust", "shouldFilterOutFile", "Failed to check file filter"))
    else Ok(SkippedName(ToLower(Basename(p))))
  }

  /** A skipped name other than the crate root is a test file: it starts with
      `test_` or ends with `test.rs`. */
  lemma SkippedNamesAreTests(f: string)
    requires SkippedName(f) && f != "lib.rs"
    ensures StartsWith(f, "test_") || EndsWith(f, "test.rs")
  {
    if EndsWith(f, "_test.rs") {
      EndsWithTransitive(f, "_test.rs", "test.rs");
    }
  }

  /** `getFileTitle(p)`: the file name without `.rs`; an empty path fails. */
  function FileTitle(p: string): (r: Result<string, Error>)
    ensures r.Err? <==> p == ""
    ensures r.Err? ==> r.error == LangBase.EmptyPathError("Rust", "getFileTitle", "Failed to get file title")
  {
    if p == "" then Err(LangBase.EmptyPathError("Rust", "getFileTitle", "Failed to get file title"))
    else Ok(BasenameExt(p, ".rs"))
  }

  /** For a `.rs` file the Rust title is the shared title, and with the
      extension put back it gives the file name. */
  lemma FileTitleAgreesWithBase(p: string)
    requires p != "" && Extname(p) == ".rs"
    ensures FileTitle(p) == Ok(LangBase.FileTitle(p))
    ensures FileTitle(p).value + ".rs" == Basename(p)
  {
    LangBase.BasenameIdempotent(p);
    assert Extname(Basename(p)) == Extname(p);
    LangBase.FileTitleStripsExtension(p);
  }

  /** `getSymbolStyle(kind)` */
  function SymbolStyle(kind: SymbolKind): (st: Style)
    ensures CssClass.Cell in st.classes
    ensures kind == SymbolKind.Interface <==> st.border == Some(0)
    ensures kind != SymbolKind.Interface ==> st.border == None
    ensures st.rounded == Some(kind in {SymbolKind.Module, SymbolKind.Interface, SymbolKind.Function, SymbolKind.Method, SymbolKind.Constructor})
  {
    match kind
    case Module => MakeStyle([CssClass.Cell, CssClass.Module], Some(true), None, None)
    case Interface => MakeStyle([CssClass.Cell, CssClass.Interface, Clickable], Some(true), Some(0), None)
    case Function => MakeStyle([CssClass.Cell, CssClass.Function, Clickable], Some(true), None, None)
    case Method => MakeStyle([CssClass.Cell, CssClass.Method, Clickable], Some(true), None, None)
    case Constructor => MakeStyle([CssClass.Cell, CssClass.Constructor, Clickable], Some(true), None, None)
    case Enum => MakeStyle([CssClass.Cell, Type], Some(false), None, Some("E"))
    case Struct => MakeStyle([CssClass.Cell, Type], Some(false), None, Some("S"))
    case Class => MakeStyle([CssClass.Cell, Type], Some(false), None, Some("C"))
    case _ => MakeStyle([CssClass.Cell], Some(false), None, None)
  }

  /** Rust styles differ from the shared ones only for packages and
      namespaces (plain cells) and properties (not clickable). */
  lemma StyleAgreesWithBase(kind: SymbolKind)
    ensures kind !in {Package, Namespace, SymbolKind.Property} <==> SymbolStyle(kind) == LangBase.SymbolStyle(kind)
  {
  }

  /** `getSymbolTitle(symbol)`: the Rust keyword for the kind, then the name. */
  function SymbolTitle(s: DocumentSymbol): (t: string)
    ensures EndsWith(t, s.name)
    ensures s.kind == SymbolKind.Module ==> t == "mod " + s.name
    ensures s.kind == SymbolKind.Function ==> t == "fn " + s.name
    ensures s.kind == SymbolKind.Method ==> StartsWith(t, "impl " + s.detail + " fn ")
    ensures s.kind in {SymbolKind.Interface, TypeParameter} ==> t == "type " + s.name
    ensures s.kind !in {SymbolKind.Module, Struct, Enum, SymbolKind.Interface, TypeParameter, SymbolKind.Function, SymbolKind.Method} ==> t == s.name
  {
    var t := match s.kind
      case Module => "mod " + s.name
      case Struct => "struct " + s.name
      case Enum => "enum " + s.name
      case Interface | TypeParameter => "type " + s.name
      case Function => "fn " + s.name
      case Method => "impl " + s.detail + " fn " + s.name
      case _ => s.name;
    assert t[|t| - |s.name|..] == s.name;
    t
  }

  /** `filterSymbol(symbol)` */
  predicate FilterSymbol(s: DocumentSymbol) {
    if s.kind in {Constant, Variable, Field, EnumMember} then false
    else if s.kind in {SymbolKind.Module, SymbolKind.Function} then !Contains(ToLower(s.name), "test")
    else true
  }

  /** Rust keeps a subset of what the shared filter keeps: it also drops
      modules and functions whose name mentions a test, and nothing else. */
  lemma FilterNarrowsBase(s: DocumentSymbol)
    ensures FilterSymbol(s) ==> LangBase.FilterSymbol(s)
    ensures LangBase.FilterSymbol(s) && !FilterSymbol(s) ==> s.kind in {SymbolKind.Module, SymbolKind.Function} && Contains(ToLower(s.name), "test")
  {
  }
}
