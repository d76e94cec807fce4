/** The DOT serializer: a graph of tables, clusters and edges becomes one
    Graphviz `digraph` text, with every cell an HTML-like table row whose
    port is the cell's source position. */
module Dot {
  import opened Wrappers
  import opened Strings
  import opened JsNumbers
  import opened CssClasses
  import opened GraphTypes

  // ---------------------------------------------------------------------
  // HTML escaping
  // ---------------------------------------------------------------------

  /** `escapeHtml`: `&` first, then `"`, `<` and `>`, each globally. */
  function EscapeHtml(text: string): string {
    ReplaceAll(ReplaceAll(ReplaceAll(ReplaceAll(text, '&', "&amp;"), '"', "&quot;"), '<', "&lt;"), '>', "&gt;")
  }

  /** The entity that stands for one character. */
  function EscapeChar(c: char): (r: string)
    ensures c != '&' && c != '"' && c != '<' && c != '>' ==> r == [c]
    ensures '"' !in r && '<' !in r && '>' !in r
  {
    if c == '&' then "&amp;"
    else if c == '"' then "&quot;"
    else if c == '<' then "&lt;"
    else if c == '>' then "&gt;"
    else [c]
  }

  /** Escaping character by character: a reference definition. */
  function EscapeEach(s: string): string {
    if |s| == 0 then "" else EscapeChar(s[0]) + EscapeEach(s[1..])
  }

  /** Decoding the four entities the escape produces. */
  function Unescape(s: string): string
    decreases |s|
  {
    if StartsWith(s, "&amp;") then "&" + Unescape(s[5..])
    else if StartsWith(s, "&quot;") then "\"" + Unescape(s[6..])
    else if StartsWith(s, "&lt;") then "<" + Unescape(s[4..])
    else if StartsWith(s, "&gt;") then ">" + Unescape(s[4..])
    else if |s| == 0 then ""
    else [s[0]] + Unescape(s[1..])
  }

  lemma EscapeHtmlAppend(a: string, b: string)
    ensures EscapeHtml(a + b) == EscapeHtml(a) + EscapeHtml(b)
  {
    ReplaceAllAppend(a, b, '&', "&amp;");
    var a1, b1 := ReplaceAll(a, '&', "&amp;"), ReplaceAll(b, '&', "&amp;");
    ReplaceAllAppend(a1, b1, '"', "&quot;");
    var a2, b2 := ReplaceAll(a1, '"', "&quot;"), ReplaceAll(b1, '"', "&quot;");
    ReplaceAllAppend(a2, b2, '<', "&lt;");
    var a3, b3 := ReplaceAll(a2, '<', "&lt;"), ReplaceAll(b2, '<', "&lt;");
    ReplaceAllAppend(a3, b3, '>', "&gt;");
  }

  /** A string without any of the four special characters is left alone. */
  lemma EscapeHtmlClean(s: string)
    requires '&' !in s && '"' !in s && '<' !in s && '>' !in s
    ensures EscapeHtml(s) == s
  {
    ReplaceAllAbsent(s, '&', "&amp;");
    ReplaceAllAbsent(s, '"', "&quot;");
    ReplaceAllAbsent(s, '<', "&lt;");
    ReplaceAllAbsent(s, '>', "&gt;");
  }

  lemma EscapeHtmlChar(c: char)
    ensures EscapeHtml([c]) == EscapeChar(c)
  {
    var e := EscapeChar(c);
    if c == '&' {
      assert ReplaceAll([c], '&', "&amp;") == e;
      // The entity passes the last three stages unchanged.
      ReplaceAllAbsent(e, '"', "&quot;");
      ReplaceAllAbsent(e, '<', "&lt;");
      ReplaceAllAbsent(e, '>', "&gt;");
    } else if c == '"' {
      ReplaceAllAbsent([c], '&', "&amp;");
      assert ReplaceAll([c], '"', "&quot;") == e;
      ReplaceAllAbsent(e, '<', "&lt;");
      ReplaceAllAbsent(e, '>', "&gt;");
    } else if c == '<' {
      ReplaceAllAbsent([c], '&', "&amp;");
      ReplaceAllAbsent([c], '"', "&quot;");
      assert ReplaceAll([c], '<', "&lt;") == e;
      ReplaceAllAbsent(e, '>', "&gt;");
    } else if c == '>' {
      ReplaceAllAbsent([c], '&', "&amp;");
      ReplaceAllAbsent([c], '"', "&quot;");
      ReplaceAllAbsent([c], '<', "&lt;");
      assert ReplaceAll([c], '>', "&gt;") == e;
    } else {
      EscapeHtmlClean([c]);
    }
  }

  /** The chain of global replacements escapes each character on its own:
      an entity written by an early stage is never rewritten by a later one. */
  lemma {:induction false} EscapeHtmlPerChar(s: string)
    ensures EscapeHtml(s) == EscapeEach(s)
  {
    if |s| == 0 {
      assert EscapeHtml(s) == "";
    } else {
      assert s == [s[0]] + s[1..];
      EscapeHtmlAppend([s[0]], s[1..]);
      EscapeHtmlChar(s[0]);
      EscapeHtmlPerChar(s[1..]);
    }
  }

  /** Escaped text holds no quote and no angle bracket, so it can sit inside
      a quoted attribute or an HTML-like label. */
  lemma EscapeHtmlSafe(s: string)
    ensures '"' !in EscapeHtml(s) && '<' !in EscapeHtml(s) && '>' !in EscapeHtml(s)
  {
    var s1 := ReplaceAll(s, '&', "&amp;");
    var s2 := ReplaceAll(s1, '"', "&quot;");
    var s3 := ReplaceAll(s2, '<', "&lt;");
    ReplaceAllRemoves(s1, '"', "&quot;", '"');
    ReplaceAllRemoves(s2, '<', "&lt;", '"');
    ReplaceAllRemoves(s2, '<', "&lt;", '<');
    ReplaceAllRemoves(s3, '>', "&gt;", '"');
    ReplaceAllRemoves(s3, '>', "&gt;", '<');
    ReplaceAllRemoves(s3, '>', "&gt;", '>');
  }

  lemma UnescapeEntity(c: char, rest: string)
    ensures Unescape(EscapeChar(c) + rest) == [c] + Unescape(rest)
  {
    if c == '&' {
      UnescapeAmp(rest);
    } else if c == '"' {
      UnescapeQuot(rest);
    } else if c == '<' {
      UnescapeLt(rest);
    } else if c == '>' {
      UnescapeGt(rest);
    } else {
      UnescapePlain(c, rest);
    }
  }

  lemma UnescapeAmp(rest: string)
    ensures Unescape("&amp;" + rest) == "&" + Unescape(rest)
  {
    var s := "&amp;" + rest;
    assert s[..5] == "&amp;";
    assert s[5..] == rest;
  }

  lemma UnescapeQuot(rest: string)
    ensures Unescape("&quot;" + rest) == "\"" + Unescape(rest)
  {
    var s := "&quot;" + rest;
    assert s[1] == 'q';
    assert s[..6] == "&quot;";
    assert s[6..] == rest;
  }

  lemma UnescapeLt(rest: string)
    ensures Unescape("&lt;" + rest) == "<" + Unescape(rest)
  {
    var s := "&lt;" + rest;
    assert s[1] == 'l';
    assert s[..4] == "&lt;";
    assert s[4..] == rest;
  }

  lemma UnescapeGt(rest: string)
    ensures Unescape("&gt;" + rest) == ">" + Unescape(rest)
  {
    var s := "&gt;" + rest;
    assert s[1] == 'g';
    assert s[..4] == "&gt;";
    assert s[4..] == rest;
  }

  lemma UnescapePlain(c: char, rest: string)
    requires c != '&'
    ensures Unescape([c] + rest) == [c] + Unescape(rest)
  {
    var s := [c] + rest;
    assert s[0] == c;
    assert s[1..] == rest;
  }

  /** Escaping loses nothing: decoding the entities gives the text back. */
  lemma {:induction false} UnescapeEscapeHtml(s: string)
    ensures Unescape(EscapeHtml(s)) == s
  {
    EscapeHtmlPerChar(s);
    UnescapeEach(s);
  }

  lemma {:induction false} UnescapeEach(s: string)
    ensures Unescape(EscapeEach(s)) == s
  {
    if |s| > 0 {
      UnescapeEntity(s[0], EscapeEach(s[1..]));
      UnescapeEach(s[1..]);
      assert s == [s[0]] + s[1..];
    }
  }

  lemma {:induction false} EscapeEachGrows(x: string)
    ensures |EscapeEach(x)| >= |x|
    ensures '&' in x ==> |EscapeEach(x)| > |x| && '&' in EscapeEach(x)
  {
    if |x| > 0 {
      EscapeEachGrows(x[1..]);
      assert x == [x[0]] + x[1..];
      assert EscapeChar(x[0]) in [EscapeChar(x[0])];
      if x[0] == '&' {
        assert EscapeChar(x[0])[0] == '&';
      }
    }
  }

  /** Escaping is not idempotent: text holding an ampersand changes again
      when escaped a second time. */
  lemma EscapeHtmlNotIdempotent(s: string)
    requires '&' in s
    ensures EscapeHtml(EscapeHtml(s)) != EscapeHtml(s)
  {
    EscapeHtmlPerChar(s);
    EscapeEachGrows(s);
    EscapeHtmlPerChar(EscapeHtml(s));
    EscapeEachGrows(EscapeHtml(s));
  }

  // ---------------------------------------------------------------------
  // CSS classes
  // ---------------------------------------------------------------------

  /** One class name: its string lower-cased with a leading `cssclass.` removed. */
  function ClassName(c: CssClass): (r: string)
    ensures r == Value(c)
  {
    var lowered := ToLower(CssClassToString(c));
    NoDotInValue(c);
    ReplaceFirstAbsent(lowered, "cssclass.", "", '.');
    ReplaceFirst(lowered, "cssclass.", "")
  }

  lemma NoDotInValue(c: CssClass)
    ensures '.' !in Value(c) && ' ' !in Value(c) && '\n' !in Value(c)
    ensures '.' in "cssclass."
  {
    assert "cssclass."[8] == '.';
  }

  function ClassNames(classes: seq<CssClass>): (r: seq<string>)
    ensures |r| == |classes|
    ensures forall i | 0 <= i < |r| :: r[i] == Value(classes[i])
  {
    seq(|classes|, i requires 0 <= i < |classes| => ClassName(classes[i]))
  }

  /** `css_classes`: `class="a b"`, or nothing when there are no classes. */
  function CssClassesAttr(classes: seq<CssClass>): string {
    if |classes| == 0 then "" else "class=\"" + Join(ClassNames(classes), " ") + "\""
  }

  /** `css_classes_href`: `href="remove_me_url.a.b"`, or nothing. */
  function CssClassesHref(classes: seq<CssClass>): string {
    if |classes| == 0 then "" else "href=\"remove_me_url." + Join(ClassNames(classes), ".") + "\""
  }

  /** The class attribute lists every class, in order, and can be read back
      by splitting its value on spaces; it is empty exactly when there are
      no classes. */
  lemma CssClassesAttrLists(classes: seq<CssClass>)
    ensures CssClassesAttr(classes) == "" <==> |classes| == 0
    ensures |classes| > 0 ==>
      exists v :: CssClassesAttr(classes) == "class=\"" + v + "\"" && Split(v, ' ') == ClassNames(classes)
  {
    if |classes| > 0 {
      var names := ClassNames(classes);
      forall k | 0 <= k < |names| ensures ' ' !in names[k] {
        NoDotInValue(classes[k]);
      }
      SplitJoin(names, ' ');
      var v := Join(names, " ");
      assert CssClassesAttr(classes) == "class=\"" + v + "\"";
    }
  }

  /** The href lists every class, in order, separated by dots. */
  lemma CssClassesHrefLists(classes: seq<CssClass>)
    ensures CssClassesHref(classes) == "" <==> |classes| == 0
    ensures |classes| > 0 ==>
      exists v :: CssClassesHref(classes) == "href=\"remove_me_url." + v + "\"" && Split(v, '.') == ClassNames(classes)
  {
    if |classes| > 0 {
      var names := ClassNames(classes);
      forall k | 0 <= k < |names| ensures '.' !in names[k] {
        NoDotInValue(classes[k]);
      }
      SplitJoin(names, '.');
      var v := Join(names, ".");
      assert CssClassesHref(classes) == "href=\"remove_me_url." + v + "\"";
    }
  }

  // ---------------------------------------------------------------------
  // Cells
  // ---------------------------------------------------------------------

  /** `line_character`: how a source position names a port. */
  function PortName(line: nat, character: nat): string {
    NatToString(line) + "_" + NatToString(character)
  }

  /** Distinct positions name distinct ports. */
  lemma PortNameInjective(l1: nat, c1: nat, l2: nat, c2: nat)
    requires PortName(l1, c1) == PortName(l2, c2)
    ensures l1 == l2 && c1 == c2
  {
    NumToStringNoUnderscore(Int(l1));
    NumToStringNoUnderscore(Int(c1));
    NumToStringNoUnderscore(Int(l2));
    NumToStringNoUnderscore(Int(c2));
    SplitJoin([NatToString(l1), NatToString(c1)], '_');
    SplitJoin([NatToString(l2), NatToString(c2)], '_');
    assert Join([NatToString(l1), NatToString(c1)], "_") == PortName(l1, c1);
    assert Join([NatToString(l2), NatToString(c2)], "_") == PortName(l2, c2);
    NatToStringInjective(l1, l2);
    NatToStringInjective(c1, c2);
  }

  /** A cell's port: its range start when it has one, else its layout
      position with absent coordinates read as 0. */
  function Port(cell: Cell): string {
    if cell.rangeStart.Some? then PortName(cell.rangeStart.value.line, cell.rangeStart.value.character)
    else if cell.position.Some? then PortName(cell.position.value.row, cell.position.value.col)
    else PortName(0, 0)
  }

  function BorderAttr(border: int): string {
    "BORDER=\"" + IntToString(border) + "\""
  }

  const RoundedAttr := "STYLE=\"ROUNDED\""

  /** The border (when defined) and rounding (when true) attributes, space-separated. */
  function StylesAttr(style: Style): (r: string)
    ensures r == "" <==> style.border.None? && style.rounded != Some(true)
    ensures style.border.None? && style.rounded == Some(true) ==> r == RoundedAttr
    ensures style.border.Some? && style.rounded != Some(true) ==> r == BorderAttr(style.border.value)
    ensures style.border.Some? && style.rounded == Some(true) ==> r == BorderAttr(style.border.value) + " " + RoundedAttr
  {
    var border := if style.border.Some? then BorderAttr(style.border.value) else "";
    var rounded := if style.rounded == Some(true) then RoundedAttr else "";
    NonEmptyPair(border, rounded);
    JoinPair(border, rounded, " ");
    Join(NonEmpty([border, rounded]), " ")
  }

  /** The visible title: the icon in bold when it is a non-empty string,
      two spaces, then the escaped cell title. */
  function CellTitle(cell: Cell): (r: string)
    ensures EndsWith(r, EscapeHtml(cell.title))
  {
    var icon := if cell.style.icon.Some? && cell.style.icon.value != "" then "<B>" + cell.style.icon.value + "</B>  " else "";
    icon + EscapeHtml(cell.title)
  }

  function PortAttr(cell: Cell): string {
    "PORT=\"" + Port(cell) + "\""
  }

  function IdAttr(tableId: nat, cell: Cell): string {
    "ID=\"" + NatToString(tableId) + ":" + Port(cell) + "\""
  }

  /** A leaf cell: one row whose cell is the port. */
  function LeafDot(port: string, id: string, styles: string, href: string, title: string): string {
    "     <TR><TD " + port + " " + id + " " + styles + " " + href + ">" + title + "</TD></TR>"
  }

  /** The first row of a nested table: the cell itself, borderless. */
  function HeaderRow(port: string, title: string): string {
    "     <TR><TD " + port + " BORDER=\"0\" >" + title + "</TD></TR>"
  }

  /** Each line after the line break and indentation `indent`. */
  function Indented(lines: seq<string>, indent: string): string {
    if lines == [] then "" else indent + lines[0] + Indented(lines[1..], indent)
  }

  /** The fixed pieces around a nested table, each line indented by twelve spaces. */
  const TableOpen := Indented(TableOpenLines, RowBreak)
  const TableOpenLines := ["<TR><TD BORDER=\"0\" CELLPADDING=\"0\">", "<TABLE "]
  const RowBreak := "\n            "
  const TableClose := Indented(TableCloseLines, RowBreak)
  const TableCloseLines := ["</TABLE>", "</TD></TR>"]

  function TableAttrs(styles: string, href: string): string {
    " CELLSPACING=\"8\" CELLPADDING=\"4\" CELLBORDER=\"1\" " + styles + " BGCOLOR=\"green\" " + href + ">" + RowBreak
  }

  /** A nested table holding the header row and then the children. */
  function NestedTable(id: string, styles: string, href: string, header: string, children: string): string {
    TableOpen + id + TableAttrs(styles, href) + header + RowBreak + children + TableClose
  }

  /** `generateCellDot`: a leaf is one table row; a cell with children is a
      nested table whose first row is the cell itself and whose next rows
      are its children, in order. */
  function CellDot(tableId: nat, cell: Cell): string
    decreases cell, 2
  {
    var styles := StylesAttr(cell.style);
    var title := CellTitle(cell);
    var href := CssClassesHref(cell.style.classes);
    if |cell.children| == 0 then
      LeafDot(PortAttr(cell), IdAttr(tableId, cell), styles, href, title)
    else
      NestedTable(IdAttr(tableId, cell), styles, href, HeaderRow(PortAttr(cell), title), CellsDot(tableId, cell.children))
  }

  /** The cells, each rendered, joined by newlines. */
  function CellsDot(tableId: nat, cells: seq<Cell>): (r: string)
    decreases cells, 1
  {
    Join(CellDots(tableId, cells), "\n")
  }

  function CellDots(tableId: nat, cells: seq<Cell>): (r: seq<string>)
    ensures |r| == |cells|
    decreases cells, 0
  {
    if |cells| == 0 then [] else [CellDot(tableId, cells[0])] + CellDots(tableId, cells[1..])
  }

  lemma {:induction false} CellDotsAt(tableId: nat, cells: seq<Cell>, k: nat)
    requires k < |cells|
    ensures CellDots(tableId, cells)[k] == CellDot(tableId, cells[k])
  {
    if k > 0 {
      CellDotsAt(tableId, cells[1..], k - 1);
    }
  }

  lemma LeafDotNames(port: string, id: string, styles: string, href: string, title: string)
    ensures Contains(LeafDot(port, id, styles, href, title), port)
    ensures Contains(LeafDot(port, id, styles, href, title), id)
  {
    var tail := " " + styles + " " + href + ">" + title + "</TD></TR>";
    assert LeafDot(port, id, styles, href, title) == "     <TR><TD " + port + (" " + id + tail);
    ContainsMiddle("     <TR><TD ", port, " " + id + tail);
    assert LeafDot(port, id, styles, href, title) == "     <TR><TD " + port + " " + id + tail;
    ContainsMiddle("     <TR><TD " + port + " ", id, tail);
  }

  /** The second, fourth and sixth of seven concatenated pieces occur in the whole. */
  lemma EvenPiecesOccur(a: string, b: string, c: string, d: string, e: string, f: string, g: string)
    ensures Contains(a + b + c + d + e + f + g, b)
    ensures Contains(a + b + c + d + e + f + g, d)
    ensures Contains(a + b + c + d + e + f + g, f)
  {
    var t := a + b + c + d + e + f + g;
    assert t == a + b + (c + d + e + f + g);
    ContainsMiddle(a, b, c + d + e + f + g);
    assert t == (a + b + c) + d + (e + f + g);
    ContainsMiddle(a + b + c, d, e + f + g);
    assert t == (a + b + c + d + e) + f + g;
    ContainsMiddle(a + b + c + d + e, f, g);
  }

  /** The second and fourth of five concatenated pieces occur in the whole. */
  lemma InnerPiecesOccur(a: string, b: string, c: string, d: string, e: string)
    ensures Contains(a + b + c + d + e, b)
    ensures Contains(a + b + c + d + e, d)
  {
    var t := a + b + c + d + e;
    assert t == a + b + (c + d + e);
    ContainsMiddle(a, b, c + d + e);
    ContainsMiddle(a + b + c, d, e);
  }

  lemma NestedTableHolds(id: string, styles: string, href: string, header: string, children: string)
    ensures Contains(NestedTable(id, styles, href, header, children), id)
    ensures Contains(NestedTable(id, styles, href, header, children), header)
    ensures Contains(NestedTable(id, styles, href, header, children), children)
  {
    EvenPiecesOccur(TableOpen, id, TableAttrs(styles, href), header, RowBreak, children, TableClose);
  }

  lemma HeaderRowNames(port: string, title: string)
    ensures Contains(HeaderRow(port, title), port)
  {
    assert HeaderRow(port, title) == "     <TR><TD " + port + (" BORDER=\"0\" >" + title + "</TD></TR>");
    ContainsMiddle("     <TR><TD ", port, " BORDER=\"0\" >" + title + "</TD></TR>");
  }

  /** Every cell's rendering names its port and carries the table-qualified id. */
  lemma CellDotNamesPort(tableId: nat, cell: Cell)
    ensures Contains(CellDot(tableId, cell), PortAttr(cell))
    ensures Contains(CellDot(tableId, cell), IdAttr(tableId, cell))
  {
    var styles := StylesAttr(cell.style);
    var title := CellTitle(cell);
    var href := CssClassesHref(cell.style.classes);
    if |cell.children| == 0 {
      LeafDotNames(PortAttr(cell), IdAttr(tableId, cell), styles, href, title);
    } else {
      var header := HeaderRow(PortAttr(cell), title);
      NestedTableHolds(IdAttr(tableId, cell), styles, href, header, CellsDot(tableId, cell.children));
      HeaderRowNames(PortAttr(cell), title);
      ContainsTransitive(CellDot(tableId, cell), header, PortAttr(cell));
    }
  }

  /** A nested table renders each of its children inside it. */
  lemma CellDotHoldsChild(tableId: nat, cell: Cell, k: nat)
    requires k < |cell.children|
    ensures Contains(CellDot(tableId, cell), CellDot(tableId, cell.children[k]))
  {
    var styles := StylesAttr(cell.style);
    var title := CellTitle(cell);
    var href := CssClassesHref(cell.style.classes);
    var children := CellsDot(tableId, cell.children);
    NestedTableHolds(IdAttr(tableId, cell), styles, href, HeaderRow(PortAttr(cell), title), children);
    CellDotsAt(tableId, cell.children, k);
    JoinContainsPart(CellDots(tableId, cell.children), "\n", k);
    ContainsTransitive(CellDot(tableId, cell), children, CellDot(tableId, cell.children[k]));
  }

  /** Every cell of a table, in the order sections and their top-level
      cells come (`sections.map(...).flat()`). */
  function SectionCells(sections: seq<TableSection>): (r: seq<Cell>)
    ensures forall i, k | 0 <= i < |sections| && 0 <= k < |sections[i].cells| :: sections[i].cells[k] in r
  {
    if |sections| == 0 then [] else sections[0].cells + SectionCells(sections[1..])
  }

  /** A cell followed by all its descendants, depth first. */
  function Subtree(cell: Cell): (r: seq<Cell>)
    ensures |r| >= 1 && r[0] == cell
    decreases cell, 1
  {
    [cell] + Subtrees(cell.children)
  }

  function Subtrees(cells: seq<Cell>): seq<Cell>
    decreases cells, 0
  {
    if |cells| == 0 then [] else Subtree(cells[0]) + Subtrees(cells[1..])
  }

  const TableHeadOpen := Indented(TableHeadLines, "\n        ")
  const TableHeadLines := [
    "<TABLE BORDER=\"0\" CELLBORDER=\"1\" CELLSPACING=\"8\" CELLPADDING=\"4\">",
    "<TR><TD WIDTH=\"230\" BORDER=\"0\" CELLPADDING=\"6\" HREF=\"remove_me_url.title\">"]
  const TableFoot := Indented(TableFootLines, "\n        ") + "\n    >];"
  const TableFootLines := [
    "<TR><TD CELLSPACING=\"0\" HEIGHT=\"1\" WIDTH=\"1\" FIXEDSIZE=\"TRUE\" STYLE=\"invis\"></TD></TR>",
    "</TABLE>"]

  /** One file's node: a quoted id, an HTML-like label whose first row is the
      escaped caption, then every cell of every section, then a spacer row. */
  function TableDot(table: TableNode): string {
    var id := NatToString(table.id);
    "\n    \"" + id + "\" [id=\"" + id + "\", label=<" + TableHeadOpen + EscapeHtml(table.caption)
    + "</TD></TR>\n        " + CellsDot(table.id, SectionCells(table.sections)) + TableFoot
  }

  /** Every top-level cell of a table is rendered inside the table's node. */
  lemma TableDotHoldsCell(table: TableNode, k: nat)
    requires k < |SectionCells(table.sections)|
    ensures Contains(TableDot(table), CellDot(table.id, SectionCells(table.sections)[k]))
  {
    var cells := SectionCells(table.sections);
    var id := NatToString(table.id);
    var head := "\n    \"" + id + "\" [id=\"" + id + "\", label=<" + TableHeadOpen + EscapeHtml(table.caption) + "</TD></TR>\n        ";
    assert TableDot(table) == head + CellsDot(table.id, cells) + TableFoot;
    CellDotsAt(table.id, cells, k);
    JoinContainsPart(CellDots(table.id, cells), "\n", k);
    ContainsWithin(head, CellsDot(table.id, cells), TableFoot, CellDot(table.id, cells[k]));
  }

  /** A cell's rendering holds the rendering of every cell below it. */
  lemma {:induction false} CellDotHoldsDescendant(tableId: nat, cell: Cell, d: Cell)
    requires d in Subtree(cell)
    ensures Contains(CellDot(tableId, cell), CellDot(tableId, d))
    decreases cell, 1
  {
    if d == cell {
      ContainsMiddle("", CellDot(tableId, d), "");
      assert "" + CellDot(tableId, d) + "" == CellDot(tableId, d);
    } else {
      assert d in Subtrees(cell.children);
      var k := SubtreesMember(cell.children, d);
      assert cell.children[k] in cell.children;
      CellDotHoldsDescendant(tableId, cell.children[k], d);
      CellDotHoldsChild(tableId, cell, k);
      ContainsTransitive(CellDot(tableId, cell), CellDot(tableId, cell.children[k]), CellDot(tableId, d));
    }
  }

  /** The subtree a member of `Subtrees(cells)` comes from. */
  lemma {:induction false} SubtreesMember(cells: seq<Cell>, d: Cell) returns (k: nat)
    requires d in Subtrees(cells)
    ensures k < |cells| && d in Subtree(cells[k])
    decreases cells
  {
    if d in Subtree(cells[0]) {
      k := 0;
    } else {
      var j := SubtreesMember(cells[1..], d);
      k := j + 1;
    }
  }

  /** Every cell of a table, however deeply nested, appears in the table's
      node under its own port and its table-qualified id. */
  lemma TableDotNamesPorts(table: TableNode, d: Cell)
    requires d in Subtrees(SectionCells(table.sections))
    ensures Contains(TableDot(table), PortAttr(d))
    ensures Contains(TableDot(table), IdAttr(table.id, d))
  {
    var cells := SectionCells(table.sections);
    var k := SubtreesMember(cells, d);
    TableDotHoldsCell(table, k);
    CellDotHoldsDescendant(table.id, cells[k], d);
    ContainsTransitive(TableDot(table), CellDot(table.id, cells[k]), CellDot(table.id, d));
    CellDotNamesPort(table.id, d);
    ContainsTransitive(TableDot(table), CellDot(table.id, d), PortAttr(d));
    ContainsTransitive(TableDot(table), CellDot(table.id, d), IdAttr(table.id, d));
  }

  // ---------------------------------------------------------------------
  // Clusters
  // ---------------------------------------------------------------------

  function QuotedNodes(nodes: seq<string>): (r: seq<string>)
    ensures |r| == |nodes|
    ensures forall i | 0 <= i < |nodes| :: r[i] == "\"" + nodes[i] + "\""
  {
    seq(|nodes|, i requires 0 <= i < |nodes| => "\"" + nodes[i] + "\"")
  }

  const ClusterStyle := "\";" + Indented(ClusterStyleLines, ClusterIndent) + "\n" + ClusterIndent
  const ClusterStyleLines := ["style = \"rounded\";", "bgcolor = \"#f0f0f0\";", "color = \"#666666\";",
    "fontcolor = \"#333333\";", "margin = \"16\";"]
  const ClusterIndent := "\n            "
  const NodesComment := "  // Proper indentation for readability\n\n            "

  /** The opening of a cluster, up to where its node list starts. */
  function ClusterOpen(title: string): string {
    "\n        subgraph \"cluster_" + title + "\" {\n            label = \"" + title + ClusterStyle
  }

  const ClusterClose := "\n        };"

  /** One cluster: `cluster_` and the escaped title, its quoted node ids one
      per line, then its nested clusters. */
  function SubgraphDot(sg: Subgraph): string
    decreases sg, 2
  {
    ClusterOpen(EscapeHtml(sg.title)) + Join(QuotedNodes(sg.nodes), "\n            ") + NodesComment
    + SubgraphsDot(sg.subgraphs) + ClusterClose
  }

  /** `generateSubgraphsDot`: the clusters, each rendered, joined by newlines. */
  function SubgraphsDot(sgs: seq<Subgraph>): string
    decreases sgs, 1
  {
    Join(SubgraphDots(sgs), "\n")
  }

  function SubgraphDots(sgs: seq<Subgraph>): (r: seq<string>)
    ensures |r| == |sgs|
    decreases sgs, 0
  {
    if |sgs| == 0 then [] else [SubgraphDot(sgs[0])] + SubgraphDots(sgs[1..])
  }

  lemma {:induction false} SubgraphDotsAt(sgs: seq<Subgraph>, k: nat)
    requires k < |sgs|
    ensures SubgraphDots(sgs)[k] == SubgraphDot(sgs[k])
  {
    if k > 0 {
      SubgraphDotsAt(sgs[1..], k - 1);
    }
  }

  /** Each cluster's rendering sits at the cluster's own index. */
  lemma SubgraphDotsEach(sgs: seq<Subgraph>)
    ensures forall k | 0 <= k < |sgs| :: SubgraphDots(sgs)[k] == SubgraphDot(sgs[k])
  {
    forall k | 0 <= k < |sgs| ensures SubgraphDots(sgs)[k] == SubgraphDot(sgs[k]) {
      SubgraphDotsAt(sgs, k);
    }
  }

  /** A cluster lists each of its nodes quoted and renders each nested cluster inside itself. */
  lemma SubgraphDotHolds(sg: Subgraph)
    ensures forall i | 0 <= i < |sg.nodes| :: Contains(SubgraphDot(sg), "\"" + sg.nodes[i] + "\"")
    ensures forall k | 0 <= k < |sg.subgraphs| :: Contains(SubgraphDot(sg), SubgraphDot(sg.subgraphs[k]))
  {
    var out := SubgraphDot(sg);
    var nodes := Join(QuotedNodes(sg.nodes), "\n            ");
    var inner := SubgraphsDot(sg.subgraphs);
    InnerPiecesOccur(ClusterOpen(EscapeHtml(sg.title)), nodes, NodesComment, inner, ClusterClose);
    forall i | 0 <= i < |sg.nodes|
      ensures Contains(out, "\"" + sg.nodes[i] + "\"")
    {
      JoinContainsPart(QuotedNodes(sg.nodes), "\n            ", i);
      ContainsTransitive(out, nodes, "\"" + sg.nodes[i] + "\"");
    }
    forall k | 0 <= k < |sg.subgraphs|
      ensures Contains(out, SubgraphDot(sg.subgraphs[k]))
    {
      SubgraphDotsAt(sg.subgraphs, k);
      JoinContainsPart(SubgraphDots(sg.subgraphs), "\n", k);
      ContainsTransitive(out, inner, SubgraphDot(sg.subgraphs[k]));
    }
  }

  // ---------------------------------------------------------------------
  // Edges
  // ---------------------------------------------------------------------

  /** `line_character` of an endpoint, where either number may be NaN. */
  function EndpointPort(loc: LocId): string {
    NumToString(loc.line) + "_" + NumToString(loc.character)
  }

  /** `file:"line_character"`: the node and port an edge end attaches to. */
  function EndpointRef(loc: LocId): string {
    NatToString(loc.file) + ":\"" + EndpointPort(loc) + "\""
  }

  function EdgeIdAttr(e: Edge): string {
    "id=\"" + NatToString(e.from.file) + ":" + EndpointPort(e.from) + " -> "
    + NatToString(e.to.file) + ":" + EndpointPort(e.to) + "\""
  }

  /** The attribute list: the id, then the class attribute when the edge has classes. */
  function EdgeAttrs(e: Edge): (r: string)
    ensures |e.classes| == 0 ==> r == EdgeIdAttr(e)
    ensures |e.classes| > 0 ==> r == EdgeIdAttr(e) + ", " + CssClassesAttr(e.classes)
  {
    var id, classes := EdgeIdAttr(e), CssClassesAttr(e.classes);
    NonEmptyPair(id, classes);
    JoinPair(id, classes, ", ");
    CssClassesAttrLists(e.classes);
    Join(NonEmpty([id, classes]), ", ")
  }

  /** `generateEdgeDot`: `from -> to [attributes];`. */
  function EdgeDot(e: Edge): string {
    "    " + EndpointRef(e.from) + " -> " + EndpointRef(e.to) + " [" + EdgeAttrs(e) + "];"
  }

  /** An edge end names a cell's port exactly when the end's line and
      character are that cell's range start. */
  lemma EndpointNamesCell(loc: LocId, cell: Cell)
    requires cell.rangeStart.Some?
    ensures EndpointPort(loc) == Port(cell)
        <==> loc.line == Int(cell.rangeStart.value.line) && loc.character == Int(cell.rangeStart.value.character)
  {
    var l, c := cell.rangeStart.value.line, cell.rangeStart.value.character;
    if loc.line == Int(l) && loc.character == Int(c) {
      assert NumToString(Int(l)) == NatToString(l);
      assert NumToString(Int(c)) == NatToString(c);
    }
    if EndpointPort(loc) == Port(cell) {
      NumToStringNoUnderscore(loc.line);
      NumToStringNoUnderscore(loc.character);
      NumToStringNoUnderscore(Int(l));
      NumToStringNoUnderscore(Int(c));
      assert NumToString(Int(l)) == NatToString(l);
      assert NumToString(Int(c)) == NatToString(c);
      JoinPair(NumToString(loc.line), NumToString(loc.character), "_");
      JoinPair(NatToString(l), NatToString(c), "_");
      SplitJoin([NumToString(loc.line), NumToString(loc.character)], '_');
      SplitJoin([NatToString(l), NatToString(c)], '_');
      NumToStringIsNat(loc.line, l);
      NumToStringIsNat(loc.character, c);
    }
  }

  lemma NumToStringOneLine(x: Num)
    ensures '\n' !in NumToString(x)
  {
    match x
    case NaN =>
    case Int(i) =>
      var d := NatToString(if i < 0 then -i else i);
      assert forall k | 0 <= k < |d| :: d[k] != '\n';
      if i < 0 {
        assert "-" + d == ['-'] + d;
      }
  }

  lemma EndpointOneLine(loc: LocId)
    ensures '\n' !in EndpointPort(loc) && '\n' !in EndpointRef(loc)
    ensures '\n' !in NatToString(loc.file)
  {
    NumToStringOneLine(loc.line);
    NumToStringOneLine(loc.character);
    NumToStringOneLine(Int(loc.file));
    assert NumToString(Int(loc.file)) == NatToString(loc.file);
  }

  lemma EdgeAttrsOneLine(e: Edge)
    ensures '\n' !in EdgeAttrs(e)
  {
    EndpointOneLine(e.from);
    EndpointOneLine(e.to);
    assert '\n' !in EdgeIdAttr(e);
    if |e.classes| > 0 {
      var names := ClassNames(e.classes);
      forall k | 0 <= k < |names| ensures '\n' !in names[k] {
        NoDotInValue(e.classes[k]);
      }
      JoinAvoids(names, " ", '\n');
      assert '\n' !in CssClassesAttr(e.classes);
    }
  }

  /** An edge is written on one line. */
  lemma EdgeDotOneLine(e: Edge)
    ensures '\n' !in EdgeDot(e)
  {
    EndpointOneLine(e.from);
    EndpointOneLine(e.to);
    EdgeAttrsOneLine(e);
  }

  function EdgeDots(edges: seq<Edge>): (r: seq<string>)
    ensures |r| == |edges|
    ensures forall i | 0 <= i < |edges| :: r[i] == EdgeDot(edges[i])
  {
    seq(|edges|, i requires 0 <= i < |edges| => EdgeDot(edges[i]))
  }

  /** `processEdges`: one line per edge. */
  function ProcessEdges(edges: seq<Edge>): string {
    Join(EdgeDots(edges), "\n")
  }

  /** The edge block has exactly one line per edge, in order. */
  lemma ProcessEdgesLines(edges: seq<Edge>)
    requires |edges| > 0
    ensures Split(ProcessEdges(edges), '\n') == EdgeDots(edges)
  {
    forall k | 0 <= k < |edges| ensures '\n' !in EdgeDots(edges)[k] {
      EdgeDotOneLine(edges[k]);
    }
    SplitJoin(EdgeDots(edges), '\n');
  }

  // ---------------------------------------------------------------------
  // The graph
  // ---------------------------------------------------------------------

  const GraphHeader := "digraph {" + GraphDefaults
  const GraphDefaults := Indented(DefaultLines, "\n    ") + "\n\n"

  /** The graph, node and edge defaults, one line each, as printed after
      four spaces of indentation. */
  const DefaultLines := [
    "graph [", "    rankdir = \"LR\"", "    ranksep = 2.0", "    fontname = \"Arial\"",
    "    compound = true", "    newrank = true", "];",
    "node [", "    fontsize = \"16\"", "    fontname = \"Arial\"", "    shape = \"plaintext\"",
    "    style = \"rounded, filled\"", "];",
    "edge [", "    label = \" \"", "];"]

  function TableDots(nodes: seq<TableNode>): (r: seq<string>)
    ensures |r| == |nodes|
    ensures forall i | 0 <= i < |nodes| :: r[i] == TableDot(nodes[i])
  {
    seq(|nodes|, i requires 0 <= i < |nodes| => TableDot(nodes[i]))
  }

  /** The document around the three rendered blocks, after `header`. */
  function DotDocument(header: string, tables: string, clusters: string, edges: string): string {
    header + tables + "\n\n" + clusters + "\n\n" + edges + "\n}"
  }

  /** `generateDotSource`: the fixed graph, node and edge defaults, then the
      tables, the clusters and the edges, separated by blank lines. */
  function GenerateDotSource(g: Graph): string {
    DotDocument(GraphHeader, Join(TableDots(g.nodes), "\n"), SubgraphsDot(g.subgraphs), ProcessEdges(g.edges))
  }

  lemma StartsWithAppend(a: string, b: string)
    ensures StartsWith(a + b, a)
  {
    assert (a + b)[..|a|] == a;
  }

  lemma EndsWithAppend(a: string, b: string)
    ensures EndsWith(a + b, b)
  {
    assert (a + b)[|a|..] == b;
  }

  /** The pieces around three blocks: the whole starts with the opening and
      ends with the closing, and holds each block. */
  lemma FrameHolds(o: string, t: string, sep: string, c: string, e: string, z: string)
    ensures StartsWith(o + t + sep + c + sep + e + z, o)
    ensures EndsWith(o + t + sep + c + sep + e + z, z)
    ensures Contains(o + t + sep + c + sep + e + z, t)
    ensures Contains(o + t + sep + c + sep + e + z, c)
    ensures Contains(o + t + sep + c + sep + e + z, e)
  {
    var out := o + t + sep + c + sep + e + z;
    assert out == o + (t + sep + c + sep + e + z);
    StartsWithAppend(o, t + sep + c + sep + e + z);
    EndsWithAppend(o + t + sep + c + sep + e, z);
    EvenPiecesOccur(o, t, sep, c, sep, e, z);
  }

  /** A document whose header opens a `digraph` block is that block. */
  lemma DotDocumentFrame(header: string, tables: string, clusters: string, edges: string)
    requires StartsWith(header, "digraph {")
    ensures StartsWith(DotDocument(header, tables, clusters, edges), "digraph {")
    ensures EndsWith(DotDocument(header, tables, clusters, edges), "}")
  {
    var out := DotDocument(header, tables, clusters, edges);
    FrameHolds(header, tables, "\n\n", clusters, edges, "\n}");
    StartsWithTransitive(out, header, "digraph {");
    EndsWithTransitive(out, "\n}", "}");
  }

  /** The document holds the three blocks. */
  lemma DotDocumentHolds(header: string, tables: string, clusters: string, edges: string)
    ensures Contains(DotDocument(header, tables, clusters, edges), tables)
    ensures Contains(DotDocument(header, tables, clusters, edges), clusters)
    ensures Contains(DotDocument(header, tables, clusters, edges), edges)
  {
    FrameHolds(header, tables, "\n\n", clusters, edges, "\n}");
  }

  /** The graph header starts the `digraph` block. */
  lemma HeaderOpensGraph()
    ensures StartsWith(GraphHeader, "digraph {")
  {
    StartsWithAppend("digraph {", GraphDefaults);
  }

  /** Each part of the joined table block lies in the document. */
  lemma DocumentHoldsTables(header: string, parts: seq<string>, clusters: string, edges: string)
    ensures forall i | 0 <= i < |parts| :: Contains(DotDocument(header, Join(parts, "\n"), clusters, edges), parts[i])
  {
    var tables := Join(parts, "\n");
    DotDocumentHolds(header, tables, clusters, edges);
    forall i | 0 <= i < |parts| ensures Contains(DotDocument(header, Join(parts, "\n"), clusters, edges), parts[i]) {
      JoinContainsPart(parts, "\n", i);
      ContainsTransitive(DotDocument(header, tables, clusters, edges), tables, parts[i]);
    }
  }

  /** Each part of the joined cluster block lies in the document. */
  lemma DocumentHoldsClusters(header: string, tables: string, parts: seq<string>, edges: string)
    ensures forall i | 0 <= i < |parts| :: Contains(DotDocument(header, tables, Join(parts, "\n"), edges), parts[i])
  {
    var clusters := Join(parts, "\n");
    DotDocumentHolds(header, tables, clusters, edges);
    forall i | 0 <= i < |parts| ensures Contains(DotDocument(header, tables, Join(parts, "\n"), edges), parts[i]) {
      JoinContainsPart(parts, "\n", i);
      ContainsTransitive(DotDocument(header, tables, clusters, edges), clusters, parts[i]);
    }
  }

  /** Each part of the joined edge block lies in the document. */
  lemma DocumentHoldsEdges(header: string, tables: string, clusters: string, parts: seq<string>)
    ensures forall i | 0 <= i < |parts| :: Contains(DotDocument(header, tables, clusters, Join(parts, "\n")), parts[i])
  {
    var edges := Join(parts, "\n");
    DotDocumentHolds(header, tables, clusters, edges);
    forall i | 0 <= i < |parts| ensures Contains(DotDocument(header, tables, clusters, Join(parts, "\n")), parts[i]) {
      JoinContainsPart(parts, "\n", i);
      ContainsTransitive(DotDocument(header, tables, clusters, edges), edges, parts[i]);
    }
  }

  /** The output is one `digraph` block. */
  lemma GenerateDotSourceFrame(g: Graph)
    ensures StartsWith(GenerateDotSource(g), "digraph {") && EndsWith(GenerateDotSource(g), "}")
  {
    HeaderOpensGraph();
    DotDocumentFrame(GraphHeader, Join(TableDots(g.nodes), "\n"), SubgraphsDot(g.subgraphs), ProcessEdges(g.edges));
  }

  /** The output holds every table of the graph. */
  lemma GenerateDotSourceHoldsTables(g: Graph)
    ensures forall i | 0 <= i < |g.nodes| :: Contains(GenerateDotSource(g), TableDot(g.nodes[i]))
  {
    DocumentHoldsTables(GraphHeader, TableDots(g.nodes), SubgraphsDot(g.subgraphs), ProcessEdges(g.edges));
  }

  /** The output holds every top-level cluster of the graph. */
  lemma GenerateDotSourceHoldsClusters(g: Graph)
    ensures forall i | 0 <= i < |g.subgraphs| :: Contains(GenerateDotSource(g), SubgraphDot(g.subgraphs[i]))
  {
    DocumentHoldsClusters(GraphHeader, Join(TableDots(g.nodes), "\n"), SubgraphDots(g.subgraphs), ProcessEdges(g.edges));
    SubgraphDotsEach(g.subgraphs);
  }

  /** The output holds every edge of the graph. */
  lemma GenerateDotSourceHoldsEdges(g: Graph)
    ensures forall i | 0 <= i < |g.edges| :: Contains(GenerateDotSource(g), EdgeDot(g.edges[i]))
  {
    DocumentHoldsEdges(GraphHeader, Join(TableDots(g.nodes), "\n"), SubgraphsDot(g.subgraphs), EdgeDots(g.edges));
  }
}
