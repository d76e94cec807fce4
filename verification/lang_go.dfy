/** Go rules: the shared behaviour with its own symbol style, a highlight
    helper and a vendor/test file filter. The style switch compares the
    editor's zero-based kinds against the numbers 2, 5, 6, 12, 13 and 14.
    Five of them are the Language Server Protocol numbers of the kinds the
    comments beside them name; 6, commented as an interface, is neither the
    protocol's number (11) nor the editor's (10). Both the switch as written,
    which the tables use, and the style the comments describe are given
    here. */
module LangGo {
  import opened Wrappers
  import opened Strings
  import opened VsTypes
  import opened CssClasses
  import opened GraphTypes
  import LangBase

  /** `getConfig()`: fixed, whatever configuration the instance was built with. */
  const GoConfig := LangBase.LanguageConfig("go", "Go", [".go"], "go", ["*.go"])

  /** The class each numbered case of the style switch adds. */
  function CaseClass(n: nat): Option<CssClass> {
    if n == 2 then Some(CssClass.Module)
    else if n == 5 then Some(Type)
    else if n == 6 then Some(CssClass.Interface)
    else if n == 12 then Some(CssClass.Function)
    else if n == 13 || n == 14 then Some(Type)
    else None
  }

  /** The kind the comment beside each numbered case names. */
  function CommentedKind(n: nat): Option<SymbolKind> {
    if n == 2 then Some(SymbolKind.Module)
    else if n == 5 then Some(Class)
    else if n == 6 then Some(SymbolKind.Interface)
    else if n == 12 then Some(SymbolKind.Function)
    else if n == 13 then Some(Variable)
    else if n == 14 then Some(Constant)
    else None
  }

  /** `getSymbolStyle(kind)` as written: the switch tests the kind's numeric
      value. Every style is rounded with a border of 1, and none carries the
      `cell` class. */
  function SymbolStyleAsWritten(kind: SymbolKind): (st: Style)
    ensures st.rounded == Some(true) && st.border == Some(1) && st.icon == None
    ensures CssClass.Cell !in st.classes && |st.classes| <= 1
  {
    var c := CaseClass(KindValue(kind));
    MakeStyle(if c.Some? then [c.value] else [], Some(true), Some(1), None)
  }

  /** The style the comments describe: the switch on the named kinds. */
  function SymbolStyle(kind: SymbolKind): (st: Style)
    ensures st.rounded == Some(true) && st.border == Some(1) && st.icon == None
    ensures CssClass.Cell !in st.classes && |st.classes| <= 1
  {
    var classes := match kind
      case Module => [CssClass.Module]
      case Class => [Type]
      case Interface => [CssClass.Interface]
      case Function => [CssClass.Function]
      case Variable | Constant => [Type]
      case _ => [];
    MakeStyle(classes, Some(true), Some(1), None)
  }

  /** Each kind a comment names gets the class of that comment's case, and
      no other kind gets a class. */
  lemma StyleFollowsComments(n: nat, kind: SymbolKind)
    ensures CommentedKind(n).Some? <==> CaseClass(n).Some?
    ensures CommentedKind(n).Some? ==> SymbolStyle(CommentedKind(n).value).classes == [CaseClass(n).value]
    ensures (forall m: nat | m <= 14 :: CommentedKind(m) != Some(kind)) ==> SymbolStyle(kind).classes == []
  {
    if forall m: nat | m <= 14 :: CommentedKind(m) != Some(kind) {
      assert CommentedKind(2) != Some(kind) && CommentedKind(5) != Some(kind) && CommentedKind(6) != Some(kind);
      assert CommentedKind(12) != Some(kind) && CommentedKind(13) != Some(kind) && CommentedKind(14) != Some(kind);
    }
  }

  /** As written, a kind is styled by the case whose number is its own
      zero-based value. */
  lemma AsWrittenFollowsNumbers(kind: SymbolKind)
    ensures CaseClass(KindValue(kind)).Some? ==> SymbolStyleAsWritten(kind).classes == [CaseClass(KindValue(kind)).value]
    ensures CaseClass(KindValue(kind)).None? ==> SymbolStyleAsWritten(kind).classes == []
  {
  }

  /** The discrepancy: a module gets no class and a method is styled as a
      type; of the six kinds the comments name, only constants get the class
      their comment intends. */
  lemma AsWrittenMisstyles()
    ensures SymbolStyleAsWritten(SymbolKind.Module).classes == [] && SymbolStyle(SymbolKind.Module).classes == [CssClass.Module]
    ensures SymbolStyleAsWritten(SymbolKind.Method).classes == [Type] && SymbolStyle(SymbolKind.Method).classes == []
    ensures forall k | k in {SymbolKind.Module, Class, SymbolKind.Interface, SymbolKind.Function, Variable} ::
      SymbolStyleAsWritten(k).classes != SymbolStyle(k).classes
    ensures SymbolStyleAsWritten(Constant) == SymbolStyle(Constant)
  {
    assert KindValue(SymbolKind.Module) == 1;
    assert KindValue(SymbolKind.Method) == 5;
  }

  /** `highlightCell(cell)`: the cell's style gains the `highlight` class;
      nothing else about the cell changes. */
  function HighlightCell(cell: Cell): (c: Cell)
    ensures Highlight in c.style.classes
    ensures forall x | x in c.style.classes :: x in cell.style.classes || x == Highlight
    ensures forall x | x in cell.style.classes :: x in c.style.classes
    ensures c.title == cell.title && c.children == cell.children && c.position == cell.position
    ensures c.rangeStart == cell.rangeStart && c.rangeEnd == cell.rangeEnd
    ensures c.style == cell.style.(classes := c.style.classes)
  {
    cell.(style := cell.style.(classes := AddClass(cell.style.classes, Highlight)))
  }

  /** Highlighting twice is highlighting once. */
  lemma HighlightIdempotent(cell: Cell)
    ensures HighlightCell(HighlightCell(cell)) == HighlightCell(cell)
  {
  }

  /** `shouldFilterOutFile(p)`: Go test files and anything under a `vendor/`
      directory; unlike the other languages an empty path is not an error. */
  predicate ShouldFilterOutFile(p: string) {
    EndsWith(p, "_test.go") || Contains(p, "vendor/")
  }

  /** Every path through a vendor directory is skipped, and the empty path
      is kept. */
  lemma VendoredFilesSkipped(a: string, b: string)
    ensures ShouldFilterOutFile(a + "vendor/" + b)
    ensures !ShouldFilterOutFile("")
  {
    var p := a + "vendor/" + b;
    assert OccursAt(p, "vendor/", |a|) by {
      assert p[|a|..|a| + 7] == "vendor/";
    }
  }
}
