/** Python rules: test files and package initialisers are skipped, titles
    drop the `.py` extension, test functions, classes and modules are left
    out. */
module LangPython {
  import opened Wrappers
  import opened Strings
  import opened Paths
  import opened VsTypes
  import opened CssClasses
  import opened GraphTypes
  import LangBase

  const Config := LangBase.LanguageConfig("python", "Python", [".py"], "python", ["*.py"])

  /** A lower-cased file name that marks a test file or a package initialiser. */
  predicate SkippedName(f: string) {
    StartsWith(f, "test_") || EndsWith(f, "_test.py") || f == "__init__.py"
  }

  /** `shouldFilterOutFile(p)`: an empty path fails. */
  function ShouldFilterOutFile(p: string): (r: Result<bool, Error>)
    ensures r.Err? <==> p == ""
    ensures r.Err? ==> r.error == LangBase.EmptyPathError("Python", "shouldFilterOutFile", "Failed to check file filter")
    ensures r.Ok? ==> (r.value <==> SkippedName(ToLower(Basename(p))))
  {
    if p == "" then Err(LangBase.EmptyPathError("Python", "shouldFilterOutFile", "Failed to check file filter"))
    else Ok(SkippedName(ToLower(Basename(p))))
  }

  /** A skipped name other than a package initialiser is a test file. */
  lemma SkippedNamesAreTests(f: string)
    requires SkippedName(f) && f != "__init__.py"
    ensures StartsWith(f, "test_") || EndsWith(f, "test.py")
  {
    if EndsWith(f, "_test.py") {
      EndsWithTransitive(f, "_test.py", "test.py");
    }
  }

  /** `getFileTitle(p)`: the file name without `.py`; an empty path fails. */
  function FileTitle(p: string): (r: Result<string, Error>)
    ensures r.Err? <==> p == ""
    ensures r.Err? ==> r.error == LangBase.EmptyPathError("Python", "getFileTitle", "Failed to get file title")
  {
    if p == "" then Err(LangBase.EmptyPathError("Python", "getFileTitle", "Failed to get file title"))
    else Ok(BasenameExt(p, ".py"))
  }

  /** For a `.py` file the Python title is the shared title, and with the
      extension put back it gives the file name. */
  lemma FileTitleAgreesWithBase(p: string)
    requires p != "" && Extname(p) == ".py"
    ensures FileTitle(p) == Ok(LangBase.FileTitle(p))
    ensures FileTitle(p).value + ".py" == Basename(p)
  {
    LangBase.BasenameIdempotent(p);
    assert Extname(Basename(p)) == Extname(p);
    LangBase.FileTitleStripsExtension(p);
  }

  /** `getSymbolStyle(kind)`: no border ever; classes and properties carry an
      icon and leave `rounded` unset. */
  function SymbolStyle(kind: SymbolKind): (st: Style)
    ensures CssClass.Cell in st.classes
    ensures st.border == None
    ensures kind in {Class, SymbolKind.Property} <==> st.rounded == None
    ensures kind !in {Class, SymbolKind.Property} ==> st.rounded == Some(true)
    ensures kind == Class ==> st.icon == Some("C")
    ensures kind == SymbolKind.Property ==> st.icon == Some("p") && Clickable !in st.classes
  {
    match kind
    case Module => MakeStyle([CssClass.Cell, CssClass.Module], Some(true), None, None)
    case Function => MakeStyle([CssClass.Cell, CssClass.Function, Clickable], Some(true), None, None)
    case Method => MakeStyle([CssClass.Cell, CssClass.Method, Clickable], Some(true), None, None)
    case Constructor => MakeStyle([CssClass.Cell, CssClass.Constructor, Clickable], Some(true), None, None)
    case Class => MakeStyle([CssClass.Cell, Type], None, None, Some("C"))
    case Property => MakeStyle([CssClass.Cell, CssClass.Property], None, None, Some("p"))
    case _ => MakeStyle([CssClass.Cell], Some(true), None, None)
  }

  /** `getSymbolTitle(symbol)`: the Python keyword for the kind; every
      constructor is titled `def __init__`. */
  function SymbolTitle(s: DocumentSymbol): (t: string)
    ensures s.kind == SymbolKind.Constructor ==> t == "def __init__"
    ensures s.kind in {SymbolKind.Function, SymbolKind.Method} ==> t == "def " + s.name
    ensures s.kind == Class ==> t == "class " + s.name
    ensures s.kind != SymbolKind.Constructor ==> EndsWith(t, s.name)
  {
    var t := match s.kind
      case Class => "class " + s.name
      case Function | Method => "def " + s.name
      case Constructor => "def __init__"
      case _ => s.name;
    assert s.kind != SymbolKind.Constructor ==> t[|t| - |s.name|..] == s.name;
    t
  }

  /** `filterSymbol(symbol)` */
  predicate FilterSymbol(s: DocumentSymbol) {
    if s.kind in {Variable, Constant, Field} then false
    else if s.kind in {SymbolKind.Function, Class, SymbolKind.Module} then !Contains(ToLower(s.name), "test")
    else true
  }

  /** Python keeps enum members, which the shared filter drops; apart from
      that it keeps a subset of what the shared filter keeps. */
  lemma FilterComparedWithBase(s: DocumentSymbol)
    ensures s.kind != EnumMember && FilterSymbol(s) ==> LangBase.FilterSymbol(s)
    ensures s.kind == EnumMember ==> FilterSymbol(s) && !LangBase.FilterSymbol(s)
  {
  }
}
