/** The CSS classes attached to graph elements. */
module CssClasses {
  import opened Strings

  datatype CssClass =
    | Module | Interface | Type
    | Function | Method | Constructor | Property
    | Impl
    | Clickable | Highlight | Cell | Graph

  /** The string value of each enum member. */
  function Value(c: CssClass): string {
    match c
    case Module => "module"
    case Interface => "interface"
    case Type => "type"
    case Function => "function"
    case Method => "method"
    case Constructor => "constructor"
    case Property => "property"
    case Impl => "impl"
    case Clickable => "clickable"
    case Highlight => "highlight"
    case Cell => "cell"
    case Graph => "graph"
  }

  /** `cssClassToString`: the lower-cased value; equal to the value itself. */
  function CssClassToString(c: CssClass): (s: string)
    ensures s == Value(c)
    ensures IsLower(s) && |s| > 0
  {
    ValueIsLower(c);
    ToLower(Value(c))
  }

  lemma ValueIsLower(c: CssClass)
    ensures IsLower(Value(c))
    ensures ToLower(Value(c)) == Value(c)
  {
    ToLowerOfLower(Value(c));
  }

  /** The twelve members have pairwise distinct values. */
  lemma ValuesDistinct(a: CssClass, b: CssClass)
    requires Value(a) == Value(b)
    ensures a == b
  {
    assert Value(a)[0] == Value(b)[0] && |Value(a)| == |Value(b)|;
    match a
    case Interface =>
      assert Value(a)[2] == Value(b)[2];
    case Constructor =>
      assert Value(a)[2] == Value(b)[2];
    case Clickable =>
      assert Value(a)[1] == Value(b)[1];
    case _ =>
  }

  /** Adding to a JavaScript `Set`: appended when new, otherwise no change. */
  function AddClass(classes: seq<CssClass>, c: CssClass): (r: seq<CssClass>)
    ensures c in r && forall x :: x in classes ==> x in r
    ensures forall x :: x in r ==> x in classes || x == c
    ensures c in classes ==> r == classes
    ensures c !in classes ==> r == classes + [c]
  {
    if c in classes then classes else classes + [c]
  }
}
