/** Symbol locations of the project-wide generator: the `path:line:character`
    key under which call facts are stored, the key's parsing with
    `split(':')`, and the resolution of a location or a call item to a
    `[fileId, line, character]` triple through the registered files. */
module Locations {
  import opened Wrappers
  import opened Strings
  import opened JsNumbers
  import opened OrderedMaps
  import opened VsTypes
  import opened GraphTypes
  import Paths

  /** A path with a line and a character. The numbers come from editor
      positions, or from `parseInt` on a key, which may give NaN. */
  datatype SymbolLocation = SymbolLocation(path: string, line: Num, character: Num)

  /** `toString()`: `path:line:character`. */
  function ToKey(loc: SymbolLocation): string {
    loc.path + ":" + NumToString(loc.line) + ":" + NumToString(loc.character)
  }

  /** The location a position in a file is stored under. */
  function AtPosition(path: string, p: Position): (loc: SymbolLocation)
    ensures loc.path == path && loc.line == Int(p.line) && loc.character == Int(p.character)
  {
    SymbolLocation(path, Int(p.line), Int(p.character))
  }

  /** One destructured part of a split key read as a number; a part that is
      missing is `undefined`, which `parseInt` reads as NaN. */
  function PartNumber(parts: seq<string>, i: nat): Num {
    if i < |parts| then ParseInt(parts[i]) else NaN
  }

  /** `const [filePath, line, char] = key.split(':')` followed by
      `new SymbolLocation(filePath, parseInt(line), parseInt(char))`. */
  function ParseKey(key: string): (loc: SymbolLocation)
    ensures ':' !in loc.path
  {
    var parts := Split(key, ':');
    SymbolLocation(parts[0], PartNumber(parts, 1), PartNumber(parts, 2))
  }

  /** A printed number never holds a colon. */
  lemma NatToStringNoColon(n: nat)
    ensures ':' !in NatToString(n)
  {
    var d := NatToString(n);
    assert forall k | 0 <= k < |d| :: d[k] != ':';
  }

  /** The key of a location at a position reads back as that location
      whenever the path holds no colon. */
  lemma KeyRoundTrip(path: string, p: Position)
    requires ':' !in path
    ensures ParseKey(ToKey(AtPosition(path, p))) == AtPosition(path, p)
  {
    var l, c := NatToString(p.line), NatToString(p.character);
    assert NumToString(Int(p.line)) == l && NumToString(Int(p.character)) == c;
    NatToStringNoColon(p.line);
    NatToStringNoColon(p.character);
    var parts := [path, l, c];
    assert Join(parts, ":") == path + ":" + (l + ":" + c) by {
      assert parts[1..] == [l, c];
      JoinPair(l, c, ":");
    }
    assert ToKey(AtPosition(path, p)) == Join(parts, ":");
    SplitJoin(parts, ':');
    ParseIntOfNat(p.line);
    ParseIntOfNat(p.character);
  }

  /** A path holding a colon never survives the key: the parsed path is only
      the text before its first colon. */
  lemma KeyLosesColonPath(loc: SymbolLocation)
    requires ':' in loc.path
    ensures ParseKey(ToKey(loc)).path != loc.path
    ensures |ParseKey(ToKey(loc)).path| < |loc.path|
  {
    var key := ToKey(loc);
    var i := IndexOf(key, ':');
    var j :| 0 <= j < |loc.path| && loc.path[j] == ':';
    assert key[j] == ':';
    IndexOfFirst(key, ':', j);
    assert Split(key, ':')[0] == key[..i];
  }

  /** The error `decodeURIComponent` throws on a malformed escape. */
  const UriMalformed := Error("URI malformed", None)

  /** A path that starts with `file:` loses its first seven characters (the
      `file://` prefix) and is percent-decoded; any other path is used as it is. */
  function FsPath(path: string): (r: Result<string, Error>)
    ensures !StartsWith(path, "file:") ==> r == Ok(path)
    ensures r.Err? ==> r.error == UriMalformed
  {
    if StartsWith(path, "file:") then
      var rest := if |path| >= 7 then path[7..] else "";
      match Paths.PercentDecode(rest)
      case Some(decoded) => Ok(decoded)
      case None => Err(UriMalformed)
    else Ok(path)
  }

  /** A `file://` URI without escapes names the path after its prefix. */
  lemma FsPathOfFileUri(p: string)
    requires '%' !in p
    ensures FsPath("file://" + p) == Ok(p)
  {
    var u := "file://" + p;
    assert u[..5] == "file:";
    assert u[7..] == p;
    Paths.PercentDecodePlain(p);
  }

  /** A path read back from a key has no colon, so it never takes the
      decoding branch and never fails. */
  lemma ParsedPathIsPlain(key: string)
    ensures FsPath(ParseKey(key).path) == Ok(ParseKey(key).path)
  {
    var p := ParseKey(key).path;
    if |p| >= 5 {
      assert p[4] != ':';
      assert p[..5][4] != "file:"[4];
    }
  }

  /** `locationId(files)`: the registered file under the canonical path, with
      the location's own line and character; undefined for an unknown path;
      the decoding error when the path is a malformed URI. */
  function LocationId(loc: SymbolLocation, files: OMap<string, FileOutline>): (r: Result<Option<LocId>, Error>)
    ensures r.Err? <==> FsPath(loc.path).Err?
    ensures r.Ok? ==> (r.value.Some? <==> FsPath(loc.path).value in files.values)
    ensures r.Ok? && r.value.Some? ==>
      r.value.value == LocId(files.values[FsPath(loc.path).value].id, loc.line, loc.character)
  {
    match FsPath(loc.path)
    case Err(e) => Err(e)
    case Ok(p) =>
      match files.Get(p)
      case None => Ok(None)
      case Some(file) => Ok(Some(LocId(file.id, loc.line, loc.character)))
  }

  /** `callItemToLocationId`: looks the item up by its URI's file-system path
      and takes the start of its full range (not of its selection range). */
  function CallItemToLocationId(item: CallHierarchyItem, files: OMap<string, FileOutline>): (r: Option<LocId>)
    ensures r.Some? <==> item.uri.fsPath in files.values
    ensures r.Some? ==> r.value == LocId(files.values[item.uri.fsPath].id, Int(item.range.start.line), Int(item.range.start.character))
  {
    match files.Get(item.uri.fsPath)
    case None => None
    case Some(file) => Some(LocId(file.id, Int(item.range.start.line), Int(item.range.start.character)))
  }

  /** `locationToId`: `fileId_line_character`. */
  function LocationToId(loc: LocId): string {
    NatToString(loc.file) + "_" + NumToString(loc.line) + "_" + NumToString(loc.character)
  }

  /** The id of a cell of table `t` at line `l`, character `c`. */
  function CellId(t: nat, l: nat, c: nat): string {
    LocationToId(LocId(t, Int(l), Int(c)))
  }

  /** A location's id names a cell's place exactly when the location is that
      place: NaN and negative numbers never match, and no two places share an id. */
  lemma LocationToIdMatchesCell(loc: LocId, t: nat, l: nat, c: nat)
    ensures LocationToId(loc) == CellId(t, l, c) <==> loc == LocId(t, Int(l), Int(c))
  {
    if LocationToId(loc) == CellId(t, l, c) {
      assert NumToString(Int(l)) == NatToString(l) && NumToString(Int(c)) == NatToString(c);
      NumToStringNoUnderscore(Int(loc.file));
      assert NumToString(Int(loc.file)) == NatToString(loc.file);
      NumToStringNoUnderscore(loc.line);
      NumToStringNoUnderscore(loc.character);
      NumToStringNoUnderscore(Int(t));
      assert NumToString(Int(t)) == NatToString(t);
      NumToStringNoUnderscore(Int(l));
      NumToStringNoUnderscore(Int(c));
      ThreePartsInjective(NatToString(loc.file), NumToString(loc.line), NumToString(loc.character),
        NatToString(t), NatToString(l), NatToString(c), '_');
      NatToStringInjective(loc.file, t);
      NumToStringIsNat(loc.line, l);
      NumToStringIsNat(loc.character, c);
    }
  }

  /** Three parts joined by a separator none of them holds are recovered uniquely. */
  lemma ThreePartsInjective(a0: string, a1: string, a2: string, b0: string, b1: string, b2: string, sep: char)
    requires sep !in a0 && sep !in a1 && sep !in a2 && sep !in b0 && sep !in b1 && sep !in b2
    requires a0 + [sep] + a1 + [sep] + a2 == b0 + [sep] + b1 + [sep] + b2
    ensures a0 == b0 && a1 == b1 && a2 == b2
  {
    SplitThree(a0, a1, a2, sep);
    SplitThree(b0, b1, b2, sep);
    assert [a0, a1, a2][0] == a0 && [a0, a1, a2][1] == a1 && [a0, a1, a2][2] == a2;
  }

  /** Three parts joined by a separator none of them holds split back into those parts. */
  lemma SplitThree(x0: string, x1: string, x2: string, sep: char)
    requires sep !in x0 && sep !in x1 && sep !in x2
    ensures Split(x0 + [sep] + x1 + [sep] + x2, sep) == [x0, x1, x2]
  {
    var xs := [x0, x1, x2];
    forall k | 0 <= k < 3
      ensures sep !in xs[k]
    {
      if k == 0 { assert xs[k] == x0; } else if k == 1 { assert xs[k] == x1; } else { assert xs[k] == x2; }
    }
    JoinThree(xs, [sep]);
    SplitJoin(xs, sep);
  }

  lemma JoinThree(parts: seq<string>, sep: string)
    requires |parts| == 3
    ensures Join(parts, sep) == parts[0] + sep + parts[1] + sep + parts[2]
  {
    assert parts[1..] == [parts[1], parts[2]];
    JoinPair(parts[1], parts[2], sep);
  }
}
