/** Java rules: test and descriptor files are skipped, titles carry the
    package taken from the directory layout, private members and test
    classes are left out of the outline. */
module LangJava {
  import opened Wrappers
  import opened Strings
  import opened Paths
  import opened VsTypes
  import opened CssClasses
  import opened GraphTypes
  import LangBase

  const Config := LangBase.LanguageConfig("java", "Java", [".java"], "java", ["*.java"])

  /** A lower-cased file name that marks a test, a suite or a package or
      module descriptor. */
  predicate SkippedName(f: string) {
    EndsWith(f, "test.java") || EndsWith(f, "tests.java") || EndsWith(f, "testcase.java")
    || EndsWith(f, "suite.java") || f == "package-info.java" || f == "module-info.java"
  }

  /** `shouldFilterOutFile(p)`: test, suite and descriptor files are skipped;
      an empty path fails. */
  function ShouldFilterOutFile(p: string): (r: Result<bool, Error>)
    ensures r.Err? <==> p == ""
    ensures r.Err? ==> r.error == LangBase.EmptyPathError("Java", "shouldFilterOutFile", "Failed to check file filter")
    ensures r.Ok? ==> (r.value <==> SkippedName(ToLower(Basename(p))))
  {
    if p == "" then Err(LangBase.EmptyPathError("Java", "shouldFilterOutFile", "Failed to check file filter"))
    else Ok(SkippedName(ToLower(Basename(p))))
  }

  /** Only names ending in `.java` are ever skipped. */
  lemma SkippedNamesAreJava(f: string)
    requires SkippedName(f)
    ensures EndsWith(f, ".java")
  {
    if EndsWith(f, "test.java") {
      EndsWithTransitive(f, "test.java", ".java");
    } else if EndsWith(f, "tests.java") {
      EndsWithTransitive(f, "tests.java", ".java");
    } else if EndsWith(f, "testcase.java") {
      EndsWithTransitive(f, "testcase.java", ".java");
    } else if EndsWith(f, "suite.java") {
      EndsWithTransitive(f, "suite.java", ".java");
    }
  }

  /** A directory name that opens the package path. */
  predicate IsSourceRoot(part: string) {
    part == "src" || part == "main" || part == "java"
  }

  /** `parts.findIndex(IsSourceRoot)` */
  function FindSourceRoot(parts: seq<string>): (i: int)
    ensures -1 <= i < |parts|
    ensures 0 <= i ==> IsSourceRoot(parts[i]) && forall j | 0 <= j < i :: !IsSourceRoot(parts[j])
    ensures i == -1 ==> forall j | 0 <= j < |parts| :: !IsSourceRoot(parts[j])
  {
    if |parts| == 0 then -1
    else if IsSourceRoot(parts[0]) then 0
    else
      var i := FindSourceRoot(parts[1..]);
      if i == -1 then -1 else i + 1
  }

  /** `parts.slice(start, -1)`: from `start` up to, not including, the last part. */
  function SliceToLast(parts: seq<string>, start: nat): seq<string> {
    if start < |parts| - 1 then parts[start..|parts| - 1] else []
  }

  /** `getPackageName(p)`: the directories between the first source root and
      the file, joined with dots; absent when no directory is a source root. */
  function PackageName(p: string): Option<string> {
    var parts := Split(p, '/');
    var i := FindSourceRoot(parts);
    if i >= 0 then Some(Join(SliceToLast(parts, i + 1), ".")) else None
  }

  /** The first source root is found after a prefix without one. */
  lemma {:induction false} FindSourceRootAfter(prefix: seq<string>, rest: seq<string>)
    requires |rest| > 0 && IsSourceRoot(rest[0])
    requires forall j | 0 <= j < |prefix| :: !IsSourceRoot(prefix[j])
    ensures FindSourceRoot(prefix + rest) == |prefix|
  {
    if |prefix| > 0 {
      assert (prefix + rest)[1..] == prefix[1..] + rest;
      FindSourceRootAfter(prefix[1..], rest);
    }
  }

  /** For a path laid out as `prefix/root/pkgs.../file`, where no directory
      of `prefix` is a source root, the package is `pkgs` joined with dots. */
  lemma PackageOfLayout(prefix: seq<string>, root: string, pkgs: seq<string>, file: string)
    requires IsSourceRoot(root)
    requires forall j | 0 <= j < |prefix| :: !IsSourceRoot(prefix[j])
    requires forall x | x in prefix + [root] + pkgs + [file] :: '/' !in x
    ensures PackageName(Join(prefix + [root] + pkgs + [file], "/")) == Some(Join(pkgs, "."))
  {
    var parts := prefix + [root] + pkgs + [file];
    NoSlashAt(parts);
    SplitJoin(parts, '/');
    LayoutRoot(prefix, root, pkgs, file);
    LayoutPackages(prefix, root, pkgs, file);
  }

  /** A separator absent from every member is absent at every index. */
  lemma NoSlashAt(parts: seq<string>)
    requires forall x | x in parts :: '/' !in x
    ensures forall k | 0 <= k < |parts| :: '/' !in parts[k]
  {
    forall k | 0 <= k < |parts|
      ensures '/' !in parts[k]
    {
      assert parts[k] in parts;
    }
  }

  /** In `prefix/root/pkgs.../file` the first source root is `root`. */
  lemma LayoutRoot(prefix: seq<string>, root: string, pkgs: seq<string>, file: string)
    requires IsSourceRoot(root)
    requires forall j | 0 <= j < |prefix| :: !IsSourceRoot(prefix[j])
    ensures FindSourceRoot(prefix + [root] + pkgs + [file]) == |prefix|
  {
    var rest := [root] + pkgs + [file];
    assert prefix + [root] + pkgs + [file] == prefix + rest;
    FindSourceRootAfter(prefix, rest);
  }

  /** In `prefix/root/pkgs.../file` the parts after the root and before the file are `pkgs`. */
  lemma LayoutPackages(prefix: seq<string>, root: string, pkgs: seq<string>, file: string)
    ensures SliceToLast(prefix + [root] + pkgs + [file], |prefix| + 1) == pkgs
  {
    var parts := prefix + [root] + pkgs + [file];
    assert parts[|prefix| + 1..|parts| - 1] == pkgs;
  }

  /** The first source root wins: in a Maven layout `.../src/main/java/pkgs/file`
      the package starts after `src`, so `main` and `java` become part of it. */
  lemma MavenLayoutPackage(prefix: seq<string>, pkgs: seq<string>, file: string)
    requires forall j | 0 <= j < |prefix| :: !IsSourceRoot(prefix[j])
    requires forall x | x in prefix + pkgs + [file] :: '/' !in x
    ensures PackageName(Join(prefix + ["src", "main", "java"] + pkgs + [file], "/")) == Some(Join(["main", "java"] + pkgs, "."))
  {
    var rest := ["main", "java"] + pkgs;
    assert prefix + ["src", "main", "java"] + pkgs + [file] == prefix + ["src"] + rest + [file];
    forall x | x in prefix + ["src"] + rest + [file]
      ensures '/' !in x
    {
      if x !in prefix + pkgs + [file] {
        assert x in ["src", "main", "java"];
      }
    }
    PackageOfLayout(prefix, "src", rest, file);
  }

  /** `getFileTitle(p)`: the file name without `.java`, prefixed by the
      package and a dot when the package is not empty; an empty path fails. */
  function FileTitle(p: string): (r: Result<string, Error>)
    ensures r.Err? <==> p == ""
    ensures r.Err? ==> r.error == LangBase.EmptyPathError("Java", "getFileTitle", "Failed to get file title")
  {
    if p == "" then Err(LangBase.EmptyPathError("Java", "getFileTitle", "Failed to get file title"))
    else
      var fileName := BasenameExt(p, ".java");
      var pkg := PackageName(p);
      if pkg.Some? && pkg.value != "" then Ok(pkg.value + "." + fileName) else Ok(fileName)
  }

  /** A class file under a source root is titled with its qualified name. */
  lemma FileTitleQualified(prefix: seq<string>, root: string, pkgs: seq<string>, name: string)
    requires IsSourceRoot(root)
    requires forall j | 0 <= j < |prefix| :: !IsSourceRoot(prefix[j])
    requires forall x | x in prefix + [root] + pkgs :: '/' !in x
    requires name != "" && '/' !in name
    requires Join(pkgs, ".") != ""
    ensures FileTitle(Join(prefix + [root] + pkgs + [name + ".java"], "/")) == Ok(Join(pkgs, ".") + "." + name)
  {
    var dirs := prefix + [root] + pkgs;
    var file := name + ".java";
    assert '/' !in file by {
      assert forall k | 0 <= k < |file| :: k < |name| ==> file[k] == name[k];
    }
    var p := Join(dirs + [file], "/");
    PackageOfLayout(prefix, root, pkgs, file);
    assert PackageName(p) == Some(Join(pkgs, "."));
    JoinSnoc(dirs, file, "/");
    ClassFileBasename(Join(dirs, "/"), name);
    assert BasenameExt(p, ".java") == name;
  }

  /** The `.java` file `name` in any directory has the base name `name`. */
  lemma ClassFileBasename(dir: string, name: string)
    requires name != "" && '/' !in name
    ensures BasenameExt(dir + "/" + (name + ".java"), ".java") == name
  {
    var file := name + ".java";
    var p := dir + "/" + file;
    assert '/' !in file by {
      assert forall k | 0 <= k < |file| :: k < |name| ==> file[k] == name[k];
    }
    BasenameAfterSlash(dir, file);
    assert |p| > |file| > 5;
    assert file[|file| - 5..] == ".java";
    assert file[..|file| - 5] == name;
  }

  /** `getSymbolStyle(kind)` */
  function SymbolStyle(kind: SymbolKind): (st: Style)
    ensures CssClass.Cell in st.classes
    ensures kind == SymbolKind.Interface ==> st.border == Some(0) && st.icon == Some("I")
    ensures kind != SymbolKind.Interface ==> st.border == None
    ensures st.rounded == Some(kind in {Package, SymbolKind.Interface, SymbolKind.Function, SymbolKind.Method, SymbolKind.Constructor})
  {
    match kind
    case Package => MakeStyle([CssClass.Cell, CssClass.Module], Some(true), None, None)
    case Interface => MakeStyle([CssClass.Cell, CssClass.Interface, Clickable], Some(true), Some(0), Some("I"))
    case Function => MakeStyle([CssClass.Cell, CssClass.Function, Clickable], Some(true), None, None)
    case Method => MakeStyle([CssClass.Cell, CssClass.Method, Clickable], Some(true), None, None)
    case Constructor => MakeStyle([CssClass.Cell, CssClass.Constructor, Clickable], Some(true), None, None)
    case Class => MakeStyle([CssClass.Cell, Type], Some(false), None, Some("C"))
    case Enum => MakeStyle([CssClass.Cell, Type], Some(false), None, Some("E"))
    case Property => MakeStyle([CssClass.Cell, CssClass.Property, Clickable], Some(false), None, None)
    case _ => MakeStyle([CssClass.Cell], Some(false), None, None)
  }

  /** Java styles differ from the shared ones only for modules and namespaces
      (plain cells), interfaces (an `I` icon) and structs (no `S` icon). */
  lemma StyleAgreesWithBase(kind: SymbolKind)
    ensures kind !in {SymbolKind.Module, Namespace, SymbolKind.Interface, Struct} <==> SymbolStyle(kind) == LangBase.SymbolStyle(kind)
  {
  }

  /** `isPrivate(symbol)` */
  predicate IsPrivate(s: DocumentSymbol) {
    Contains(s.detail, "private")
  }

  /** `getAccessModifier(symbol)`: the first of private, protected, public
      mentioned in the detail, or "". */
  function AccessModifier(s: DocumentSymbol): (m: string)
    ensures m in {"private", "protected", "public", ""}
    ensures m != "" ==> Contains(s.detail, m)
    ensures m == "" <==> !Contains(s.detail, "private") && !Contains(s.detail, "protected") && !Contains(s.detail, "public")
    ensures IsPrivate(s) <==> m == "private"
  {
    if Contains(s.detail, "private") then "private"
    else if Contains(s.detail, "protected") then "protected"
    else if Contains(s.detail, "public") then "public"
    else ""
  }

  /** `isStatic`, `isFinal` and `isAbstract`: the word appears in the detail. */
  function Flag(s: DocumentSymbol, word: string): string {
    if Contains(s.detail, word) then word else ""
  }

  /** The modifier words of a symbol, access first. */
  function ModifierWords(s: DocumentSymbol): seq<string> {
    NonEmpty([AccessModifier(s), Flag(s, "static"), Flag(s, "final"), Flag(s, "abstract")])
  }

  /** The modifiers joined by single spaces. */
  function Modifiers(s: DocumentSymbol): string {
    Join(ModifierWords(s), " ")
  }

  /** The modifier string splits back into its words: every word is a known
      keyword present in the detail, and none is empty, so there is never a
      doubled, leading or trailing space. */
  lemma ModifiersRoundTrip(s: DocumentSymbol)
    ensures forall w | w in ModifierWords(s) :: w in ModifierKeywords && Contains(s.detail, w)
    ensures |ModifierWords(s)| > 0 ==> Split(Modifiers(s), ' ') == ModifierWords(s)
    ensures |ModifierWords(s)| == 0 <==> Modifiers(s) == ""
  {
    var w := ModifierWords(s);
    if |w| > 0 {
      assert w[0] in w;
      assert |Modifiers(s)| >= |w[0]| > 0;
      KeywordsHaveNoSpace();
      forall k | 0 <= k < |w|
        ensures ' ' !in w[k]
      {
        assert w[k] in w;
      }
      SplitJoin(w, ' ');
    } else {
      assert Modifiers(s) == "";
    }
  }

  /** The words a modifier string may hold. */
  const ModifierKeywords: set<string> := {"private", "protected", "public", "static", "final", "abstract"}

  /** No modifier keyword holds a space. */
  lemma KeywordsHaveNoSpace()
    ensures forall w | w in ModifierKeywords :: ' ' !in w
  {
  }

  /** `getSymbolTitle(symbol)` */
  function SymbolTitle(s: DocumentSymbol): (t: string)
    ensures s.kind == Package ==> t == "package " + s.name
    ensures s.kind == SymbolKind.Constructor ==> t == AccessModifier(s) + " " + s.name + s.detail
    ensures s.kind in {Class, SymbolKind.Interface, Enum, SymbolKind.Method, Field} ==> StartsWith(t, Modifiers(s) + " ")
    ensures s.kind !in {Package, Class, SymbolKind.Interface, Enum, SymbolKind.Method, SymbolKind.Constructor, Field} ==> t == s.name
  {
    var m := Modifiers(s);
    match s.kind
    case Package => "package " + s.name
    case Class => m + " class " + s.name
    case Interface => m + " interface " + s.name
    case Enum => m + " enum " + s.name
    case Method => m + " " + s.name + s.detail
    case Constructor => AccessModifier(s) + " " + s.name + s.detail
    case Field => m + " " + s.name
    case _ => s.name
  }

  /** `filterSymbol(symbol)` */
  predicate FilterSymbol(s: DocumentSymbol) {
    if IsPrivate(s) then false
    else if s.kind in {Variable, Constant, EnumMember} then false
    else if s.kind in {Class, SymbolKind.Method} then
      var name := ToLower(s.name);
      !Contains(name, "test") && !EndsWith(name, "suite")
    else true
  }

  /** Java keeps fields, which the shared filter drops; apart from that it
      keeps only what the shared filter keeps, and never a private member. */
  lemma FilterNarrowsBase(s: DocumentSymbol)
    ensures FilterSymbol(s) && s.kind != Field ==> LangBase.FilterSymbol(s)
    ensures FilterSymbol(s) ==> !Contains(s.detail, "private")
    ensures s.kind == Field && !IsPrivate(s) ==> FilterSymbol(s)
  {
  }
}
