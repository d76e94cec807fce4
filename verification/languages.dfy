/** The languages the generator can be given, and the dispatch of each
    language-specific rule to its implementation. */
module Languages {
  import opened Wrappers
  import opened Strings
  import opened VsTypes
  import opened GraphTypes
  import LangBase
  import LangJava
  import LangRust
  import LangPython
  import LangGo
  import LangTypeScript

  /** A language instance. A Go instance carries the configuration it was
      built with. */
  datatype Language = Python | Java | Rust | Go(config: LangBase.LanguageConfig) | TypeScript

  function Config(l: Language): LangBase.LanguageConfig {
    match l
    case Python => LangPython.Config
    case Java => LangJava.Config
    case Rust => LangRust.Config
    case Go(c) => c
    case TypeScript => LangTypeScript.Config
  }

  /** `isValidFile(p)`: the path ends with one of the instance's extensions. */
  function IsValidFile(l: Language, p: string): (b: bool)
    ensures b <==> exists i | 0 <= i < |Config(l).extensions| :: EndsWith(p, Config(l).extensions[i])
  {
    LangBase.IsValidFileSpec(Config(l).extensions, p);
    LangBase.IsValidFile(Config(l), p)
  }

  /** `getFileTitle(p)`: Python, Java and Rust fail on an empty path; Go and
      TypeScript use the shared title, which never fails. */
  function FileTitle(l: Language, p: string): (r: Result<string, Error>)
    ensures r.Err? ==> p == ""
    ensures p == "" && (l.Python? || l.Java? || l.Rust?) ==> r.Err?
    ensures (l.Go? || l.TypeScript?) ==> r == Ok(LangBase.FileTitle(p))
  {
    if l.Python? then LangPython.FileTitle(p)
    else if l.Java? then LangJava.FileTitle(p)
    else if l.Rust? then LangRust.FileTitle(p)
    else Ok(LangBase.FileTitle(p))
  }

  /** `filterSymbol`, as each language overrides it. */
  function Keep(l: Language): DocumentSymbol -> bool {
    match l
    case Python => LangPython.FilterSymbol
    case Java => LangJava.FilterSymbol
    case Rust => LangRust.FilterSymbol
    case _ => LangBase.FilterSymbol
  }

  /** `getSymbolStyle`, as each language overrides it; Go uses its switch as
      written, on the kinds' zero-based values. */
  function StyleOf(l: Language): SymbolKind -> Style {
    match l
    case Python => LangPython.SymbolStyle
    case Java => LangJava.SymbolStyle
    case Rust => LangRust.SymbolStyle
    case Go(_) => LangGo.SymbolStyleAsWritten
    case TypeScript => LangBase.SymbolStyle
  }

  /** `fileRepr(file)`: the file's table, or the error its title raised. */
  function FileRepr(l: Language, file: FileOutline): (r: Result<TableNode, Error>)
    ensures r.Err? <==> FileTitle(l, file.path).Err?
    ensures r.Err? ==> r.error == FileTitle(l, file.path).error
    ensures r.Ok? ==> (r.value.id == file.id && r.value.caption == FileTitle(l, file.path).value
      && r.value.cssClass == Some(CssClasses.Module) && |r.value.sections| == 1)
    ensures r.Ok? ==>
      var cells := r.value.sections[0].cells;
      var kept := LangBase.Filter(Keep(l), file.symbols);
      |cells| == |kept| && forall i | 0 <= i < |cells| :: cells[i].style == StyleOf(l)(kept[i].kind)
  {
    LangBase.FileRepr(Keep(l), StyleOf(l), FileTitle(l, file.path), file)
  }

  /** A table's top-level cells are the accepted top-level symbols, in order,
      in rows 0, 1, ... of column 0. */
  lemma TopLevelCells(l: Language, file: FileOutline)
    requires FileRepr(l, file).Ok?
    ensures var cells := FileRepr(l, file).value.sections[0].cells;
      var kept := LangBase.Filter(Keep(l), file.symbols);
      |cells| == |kept|
      && (forall i | 0 <= i < |cells| :: cells[i].title == kept[i].name && cells[i].position == Some(GraphTypes.CellPosition(i, 0)))
      && (forall i | 0 <= i < |cells| :: kept[i] in file.symbols && Keep(l)(kept[i]))
  {
    var kept := LangBase.Filter(Keep(l), file.symbols);
    assert forall i | 0 <= i < |kept| :: kept[i] in kept;
  }

  /** A Go table is always built, and each top-level cell is styled by the
      switch as written, on its kind's zero-based value: a module cell
      carries no class and a method cell carries `type`. */
  lemma GoCellsFollowSwitch(c: LangBase.LanguageConfig, file: FileOutline)
    ensures FileRepr(Go(c), file).Ok?
    ensures var cells := FileRepr(Go(c), file).value.sections[0].cells;
      var kept := LangBase.Filter(Keep(Go(c)), file.symbols);
      |cells| == |kept|
      && (forall i | 0 <= i < |cells| :: cells[i].style == LangGo.SymbolStyleAsWritten(kept[i].kind))
      && (forall i | 0 <= i < |cells| && kept[i].kind == SymbolKind.Module :: cells[i].style.classes == [])
      && (forall i | 0 <= i < |cells| && kept[i].kind == SymbolKind.Method :: cells[i].style.classes == [CssClasses.Type])
  {
    var r := FileRepr(Go(c), file);
    assert FileTitle(Go(c), file.path).Ok?;
    var cells := r.value.sections[0].cells;
    var kept := LangBase.Filter(Keep(Go(c)), file.symbols);
    GoStyle(c);
    assert forall i | 0 <= i < |cells| :: cells[i].style == LangGo.SymbolStyleAsWritten(kept[i].kind);
    LangGo.AsWrittenMisstyles();
  }

  /** Every Go instance styles with the switch as written. */
  lemma GoStyle(c: LangBase.LanguageConfig)
    ensures StyleOf(Go(c)) == LangGo.SymbolStyleAsWritten
  {
  }

  /** A Java table never shows a private top-level member. */
  lemma JavaHidesPrivate(file: FileOutline)
    requires FileRepr(Java, file).Ok?
    ensures forall c | c in FileRepr(Java, file).value.sections[0].cells ::
      exists s | s in file.symbols :: s.name == c.title && !Contains(s.detail, "private")
  {
    var cells := FileRepr(Java, file).value.sections[0].cells;
    var kept := LangBase.Filter(Keep(Java), file.symbols);
    TopLevelCells(Java, file);
    forall c | c in cells
      ensures exists s | s in file.symbols :: s.name == c.title && !Contains(s.detail, "private")
    {
      var i :| 0 <= i < |cells| && cells[i] == c;
      LangJava.FilterNarrowsBase(kept[i]);
      assert kept[i] in file.symbols;
    }
  }

  /** The languages that reject an empty path report it through the title. */
  lemma EmptyPathFails(id: nat, symbols: seq<DocumentSymbol>)
    ensures FileRepr(Python, FileOutline(id, "", symbols)) == Err(LangBase.EmptyPathError("Python", "getFileTitle", "Failed to get file title"))
    ensures FileRepr(Java, FileOutline(id, "", symbols)) == Err(LangBase.EmptyPathError("Java", "getFileTitle", "Failed to get file title"))
    ensures FileRepr(Rust, FileOutline(id, "", symbols)) == Err(LangBase.EmptyPathError("Rust", "getFileTitle", "Failed to get file title"))
    ensures FileRepr(TypeScript, FileOutline(id, "", symbols)).Ok?
  {
  }
}
