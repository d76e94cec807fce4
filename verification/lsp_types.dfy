/** Runtime guards and validating constructors for protocol values. The guards
    inspect arbitrary JavaScript values, so they are stated over `JsValue`. */
module LspTypes {
  import opened Wrappers
  import opened JsNumbers
  import VsTypes

  /** A JavaScript value as far as the guards look at it. `Func(result)` is a
      function of no arguments that returns `result`. */
  datatype JsValue =
    | Undefined
    | Null
    | Bool(b: bool)
    | Number(n: Num)
    | Str(s: string)
    | Arr(elems: seq<JsValue>)
    | Obj(fields: seq<(string, JsValue)>)
    | Func(result: JsValue)

  /** JavaScript truthiness (`!!v`). */
  predicate Truthy(v: JsValue) {
    match v
    case Undefined => false
    case Null => false
    case Bool(b) => b
    case Number(n) => n != Int(0) && n != NaN
    case Str(s) => s != ""
    case _ => true
  }

  /** `typeof v === 'object'` */
  predicate IsObject(v: JsValue) {
    v.Null? || v.Arr? || v.Obj?
  }

  /** The index of the first field named `k`, or -1. */
  function FieldIndex(fields: seq<(string, JsValue)>, k: string): (j: int)
    ensures -1 <= j < |fields|
    ensures 0 <= j ==> fields[j].0 == k
    ensures j == -1 ==> forall i | 0 <= i < |fields| :: fields[i].0 != k
  {
    if |fields| == 0 then -1
    else if fields[0].0 == k then 0
    else
      var j := FieldIndex(fields[1..], k);
      if j == -1 then -1 else j + 1
  }

  /** The field found is the first one carrying the name. */
  lemma {:induction false} FieldIndexAt(fields: seq<(string, JsValue)>, k: string, j: nat)
    requires j < |fields| && fields[j].0 == k
    requires forall i | 0 <= i < j :: fields[i].0 != k
    ensures FieldIndex(fields, k) == j
  {
    if j > 0 {
      FieldIndexAt(fields[1..], k, j - 1);
    }
  }

  /** `v[k]` for the property names the guards read; none of them exists on
      arrays, strings or functions, so those read as undefined. */
  function Get(v: JsValue, k: string): JsValue {
    if v.Obj? then
      var j := FieldIndex(v.fields, k);
      if j < 0 then Undefined else v.fields[j].1
    else Undefined
  }

  lemma GetAt(v: JsValue, k: string, j: nat)
    requires v.Obj? && j < |v.fields| && v.fields[j].0 == k
    requires forall i | 0 <= i < j :: v.fields[i].0 != k
    ensures Get(v, k) == v.fields[j].1
  {
    FieldIndexAt(v.fields, k, j);
  }

  /** `isNonNegative(n)`: a number, not NaN, at least zero. */
  predicate IsNonNegative(v: JsValue) {
    v.Number? && v.n.Int? && v.n.value >= 0
  }

  /** `isPosition(value)` */
  predicate IsPosition(v: JsValue) {
    Truthy(v) && IsObject(v) && IsNonNegative(Get(v, "line")) && IsNonNegative(Get(v, "character"))
  }

  function PositionObject(line: JsValue, character: JsValue): JsValue {
    Obj([("line", line), ("character", character)])
  }

  /** `createPosition(line, character)`: the line is checked first. */
  function CreatePosition(line: Num, character: Num): (r: Result<JsValue, Error>)
    ensures r.Ok? <==> IsNonNegative(Number(line)) && IsNonNegative(Number(character))
    ensures !IsNonNegative(Number(line)) ==> r == Err(Error("Invalid line number: " + NumToString(line), None))
    ensures (IsNonNegative(Number(line)) && !IsNonNegative(Number(character)))
      ==> r == Err(Error("Invalid character number: " + NumToString(character), None))
  {
    if !IsNonNegative(Number(line)) then Err(Error("Invalid line number: " + NumToString(line), None))
    else if !IsNonNegative(Number(character)) then Err(Error("Invalid character number: " + NumToString(character), None))
    else Ok(PositionObject(Number(line), Number(character)))
  }

  /** The guard accepts exactly the positions the constructor builds. */
  lemma PositionGuardMatchesConstructor(line: Num, character: Num)
    ensures IsPosition(PositionObject(Number(line), Number(character))) <==> CreatePosition(line, character).Ok?
  {
    var p := PositionObject(Number(line), Number(character));
    GetAt(p, "line", 0);
    GetAt(p, "character", 1);
  }

  /** `isRange(value)`: both ends are positions; their order is not checked. */
  predicate IsRange(v: JsValue) {
    Truthy(v) && IsObject(v) && IsPosition(Get(v, "start")) && IsPosition(Get(v, "end"))
  }

  function RangeObject(start: JsValue, end: JsValue): JsValue {
    Obj([("start", start), ("end", end)])
  }

  /** `createRange(start, end)`: the start is checked first. */
  function CreateRange(start: JsValue, end: JsValue): (r: Result<JsValue, Error>)
    ensures r.Ok? <==> IsPosition(start) && IsPosition(end)
    ensures !IsPosition(start) ==> r == Err(Error("Invalid start position", None))
    ensures IsPosition(start) && !IsPosition(end) ==> r == Err(Error("Invalid end position", None))
  {
    if !IsPosition(start) then Err(Error("Invalid start position", None))
    else if !IsPosition(end) then Err(Error("Invalid end position", None))
    else Ok(RangeObject(start, end))
  }

  /** What `createRange` builds is a range. */
  lemma CreateRangeIsRange(start: JsValue, end: JsValue)
    requires CreateRange(start, end).Ok?
    ensures IsRange(CreateRange(start, end).value)
  {
    var r := RangeObject(start, end);
    GetAt(r, "start", 0);
    GetAt(r, "end", 1);
  }

  /** A range whose end precedes its start is still a range: any two
      positions with non-negative coordinates make one, in either order. */
  lemma BackwardsRangeAccepted(startLine: int, startChar: int, endLine: int, endChar: int)
    requires 0 <= startLine && 0 <= startChar && 0 <= endLine && 0 <= endChar
    requires endLine < startLine || (endLine == startLine && endChar < startChar)
    ensures IsRange(RangeObject(PositionObject(Number(Int(startLine)), Number(Int(startChar))),
                                PositionObject(Number(Int(endLine)), Number(Int(endChar)))))
  {
    var start := PositionObject(Number(Int(startLine)), Number(Int(startChar)));
    var end := PositionObject(Number(Int(endLine)), Number(Int(endChar)));
    PositionGuardMatchesConstructor(Int(startLine), Int(startChar));
    PositionGuardMatchesConstructor(Int(endLine), Int(endChar));
    CreateRangeIsRange(start, end);
  }

  /** The names of the symbol kinds, which `Object.values` of the numeric enum
      also yields. */
  function KindName(k: VsTypes.SymbolKind): string {
    match k
    case File => "File" case Module => "Module" case Namespace => "Namespace"
    case Package => "Package" case Class => "Class" case Method => "Method"
    case Property => "Property" case Field => "Field" case Constructor => "Constructor"
    case Enum => "Enum" case Interface => "Interface" case Function => "Function"
    case Variable => "Variable" case Constant => "Constant" case String => "String"
    case Number => "Number" case Boolean => "Boolean" case Array => "Array"
    case Object => "Object" case Key => "Key" case Null => "Null"
    case EnumMember => "EnumMember" case Struct => "Struct" case Event => "Event"
    case Operator => "Operator" case TypeParameter => "TypeParameter"
  }

  /** `isSymbolKind(value)`: one of the enum's values, that is a kind's number
      or a kind's name. */
  predicate IsSymbolKind(v: JsValue) {
    (v.Number? && v.n.Int? && 0 <= v.n.value <= 25)
    || (v.Str? && exists k: VsTypes.SymbolKind :: KindName(k) == v.s)
  }

  /** `isDocumentSymbol(value)`: children must be absent (falsy) or an array
      of document symbols. */
  predicate IsDocumentSymbol(v: JsValue)
    decreases v
  {
    Truthy(v) && IsObject(v)
    && Get(v, "name").Str? && Get(v, "detail").Str?
    && IsSymbolKind(Get(v, "kind"))
    && IsRange(Get(v, "range")) && IsRange(Get(v, "selectionRange"))
    && (v.Obj? ==>
          var j := FieldIndex(v.fields, "children");
          j < 0 || !Truthy(v.fields[j].1)
          || (v.fields[j].1.Arr? && forall i | 0 <= i < |v.fields[j].1.elems| :: IsDocumentSymbol(v.fields[j].1.elems[i])))
  }

  function PositionValue(p: VsTypes.Position): JsValue {
    PositionObject(Number(Int(p.line)), Number(Int(p.character)))
  }

  function RangeValue(r: VsTypes.Range): JsValue {
    RangeObject(PositionValue(r.start), PositionValue(r.end))
  }

  /** The JavaScript object of a typed document symbol. */
  function SymbolValue(s: VsTypes.DocumentSymbol): JsValue
    decreases s
  {
    Obj([("name", Str(s.name)), ("detail", Str(s.detail)),
         ("kind", Number(Int(VsTypes.KindValue(s.kind)))),
         ("range", RangeValue(s.range)), ("selectionRange", RangeValue(s.selectionRange)),
         ("children", Arr(seq(|s.children|, i requires 0 <= i < |s.children| => SymbolValue(s.children[i]))))])
  }

  lemma RangeValueIsRange(r: VsTypes.Range)
    ensures IsRange(RangeValue(r))
  {
    PositionGuardMatchesConstructor(Int(r.start.line), Int(r.start.character));
    PositionGuardMatchesConstructor(Int(r.end.line), Int(r.end.character));
    CreateRangeIsRange(PositionValue(r.start), PositionValue(r.end));
  }

  /** Every well-typed document symbol, with all its descendants, passes the guard. */
  lemma {:induction false} TypedSymbolIsValid(s: VsTypes.DocumentSymbol)
    ensures IsDocumentSymbol(SymbolValue(s))
    decreases s
  {
    var v := SymbolValue(s);
    SymbolValueHead(s);
    SymbolValueChildren(s);
    var cs := v.fields[5].1.elems;
    forall i | 0 <= i < |cs|
      ensures IsDocumentSymbol(cs[i])
    {
      assert s.children[i] in s.children;
      TypedSymbolIsValid(s.children[i]);
    }
  }

  /** The fields before the children pass their guards. */
  lemma SymbolValueHead(s: VsTypes.DocumentSymbol)
    ensures var v := SymbolValue(s);
      && Get(v, "name").Str? && Get(v, "detail").Str? && IsSymbolKind(Get(v, "kind"))
      && IsRange(Get(v, "range")) && IsRange(Get(v, "selectionRange"))
  {
    var v := SymbolValue(s);
    GetAt(v, "name", 0);
    GetAt(v, "detail", 1);
    GetAt(v, "kind", 2);
    forall i | 0 <= i < 3 ensures v.fields[i].0 != "range" {
      if i == 0 {} else if i == 1 {} else {}
    }
    GetAt(v, "range", 3);
    forall i | 0 <= i < 4 ensures v.fields[i].0 != "selectionRange" {
      if i == 0 {} else if i == 1 {} else if i == 2 {} else {}
    }
    GetAt(v, "selectionRange", 4);
    RangeValueIsRange(s.range);
    RangeValueIsRange(s.selectionRange);
  }

  /** The children field is the sixth, an array of the children's objects. */
  lemma SymbolValueChildren(s: VsTypes.DocumentSymbol)
    ensures var v := SymbolValue(s);
      && FieldIndex(v.fields, "children") == 5
      && v.fields[5].1.Arr? && |v.fields[5].1.elems| == |s.children|
      && forall i | 0 <= i < |s.children| :: v.fields[5].1.elems[i] == SymbolValue(s.children[i])
  {
    var v := SymbolValue(s);
    forall i | 0 <= i < 5 ensures v.fields[i].0 != "children" {
      if i == 0 {} else if i == 1 {} else if i == 2 {} else if i == 3 {} else {}
    }
    FieldIndexAt(v.fields, "children", 5);
  }

  /** One invalid child makes the whole symbol invalid. */
  lemma InvalidChildRejected(v: JsValue, i: nat)
    requires v.Obj?
    requires FieldIndex(v.fields, "children") >= 0
    requires v.fields[FieldIndex(v.fields, "children")].1.Arr?
    requires i < |v.fields[FieldIndex(v.fields, "children")].1.elems|
    requires !IsDocumentSymbol(v.fields[FieldIndex(v.fields, "children")].1.elems[i])
    ensures !IsDocumentSymbol(v)
  {
  }

  /** `isUri(value)`: any string, or an object with a string `path`. */
  predicate IsUri(v: JsValue) {
    v.Str? || (Truthy(v) && IsObject(v) && Get(v, "path").Str?)
  }

  /** `toUri(uri)`: a string becomes a `file` URI whose path, file-system path
      and `toString()` are all that string; anything else is returned as is. */
  function ToUri(v: JsValue): (r: JsValue)
    ensures !v.Str? ==> r == v
    ensures v.Str? ==> Get(r, "scheme") == Str("file") && Get(r, "path") == v && Get(r, "fsPath") == v
                       && Get(r, "toString") == Func(v)
    ensures IsUri(v) ==> IsUri(r)
  {
    match v
    case Str(s) =>
      var r := Obj([("scheme", Str("file")), ("authority", Str("")), ("path", v),
                    ("query", Str("")), ("fragment", Str("")), ("fsPath", v),
                    ("toString", Func(v)),
                    ("toJSON", Func(Obj([("scheme", Str("file")), ("path", v)])))]);
      FieldIndexAt(r.fields, "scheme", 0);
      FieldIndexAt(r.fields, "path", 2);
      FieldIndexAt(r.fields, "fsPath", 5);
      FieldIndexAt(r.fields, "toString", 6);
      r
    case _ => v
  }

  /** `isLocation(value)` */
  predicate IsLocation(v: JsValue) {
    Truthy(v) && IsObject(v) && IsUri(Get(v, "uri")) && IsRange(Get(v, "range"))
  }

  /** `createLocation(uri, range)`: the URI is checked before the range. */
  function CreateLocation(uri: JsValue, range: JsValue): (r: Result<JsValue, Error>)
    ensures r.Ok? <==> IsUri(uri) && IsRange(range)
    ensures !IsUri(uri) ==> r == Err(Error("Invalid URI", None))
    ensures IsUri(uri) && !IsRange(range) ==> r == Err(Error("Invalid range", None))
    ensures r.Ok? ==> IsLocation(r.value) && Get(r.value, "uri") == ToUri(uri) && Get(r.value, "range") == range
  {
    if !IsUri(uri) then Err(Error("Invalid URI", None))
    else if !IsRange(range) then Err(Error("Invalid range", None))
    else
      var loc := Obj([("uri", ToUri(uri)), ("range", range)]);
      GetAt(loc, "uri", 0);
      GetAt(loc, "range", 1);
      Ok(loc)
  }

  /** `isLocationLink(value)`: the origin selection range is optional. */
  predicate IsLocationLink(v: JsValue) {
    Truthy(v) && IsObject(v)
    && IsUri(Get(v, "targetUri"))
    && IsRange(Get(v, "targetRange"))
    && IsRange(Get(v, "targetSelectionRange"))
    && (!Truthy(Get(v, "originSelectionRange")) || IsRange(Get(v, "originSelectionRange")))
  }

  /** A link without an origin selection range is accepted when its three
      required members are valid. */
  lemma LocationLinkOriginOptional(target: JsValue, r: JsValue, sel: JsValue)
    requires IsUri(target) && IsRange(r) && IsRange(sel)
    ensures IsLocationLink(Obj([("targetUri", target), ("targetRange", r), ("targetSelectionRange", sel)]))
  {
    var v := Obj([("targetUri", target), ("targetRange", r), ("targetSelectionRange", sel)]);
    GetAt(v, "targetUri", 0);
    GetAt(v, "targetRange", 1);
    forall i | 0 <= i < 2 ensures v.fields[i].0 != "targetSelectionRange" {
      if i == 0 {} else {}
    }
    GetAt(v, "targetSelectionRange", 2);
    forall i | 0 <= i < 3 ensures v.fields[i].0 != "originSelectionRange" {
      if i == 0 {} else if i == 1 {} else { assert v.fields[i].0[0] != "originSelectionRange"[0]; }
    }
    assert Get(v, "originSelectionRange") == Undefined;
  }
}
