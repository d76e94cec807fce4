/** The mutable style object built from an optional partial initialiser. */
module Models {
  import opened Wrappers
  import opened CssClasses

  /** A JavaScript `Set<CssClass>` object. It has identity, so two styles can
      share one set and see each other's additions. */
  class ClassSet {
    var items: seq<CssClass>

    constructor()
      ensures items == []
    {
      items := [];
    }

    /** `set.add(c)` */
    method Add(c: CssClass)
      modifies this
      ensures items == AddClass(old(items), c)
    {
      items := AddClass(items, c);
    }
  }

  /** `Partial<Style>`: every field may be absent. */
  datatype StyleInit = StyleInit(
    classes: Option<ClassSet>,
    rounded: Option<bool>,
    border: Option<int>,
    icon: Option<string>,
    backgroundColor: Option<string>,
    color: Option<string>,
    fontFamily: Option<string>,
    fontSize: Option<string>,
    fontWeight: Option<string>,
    textAlign: Option<string>,
    verticalAlign: Option<string>,
    padding: Option<string>,
    margin: Option<string>)

  /** Reads one optional field of an optional initialiser (`init?.field`). */
  function Field<T>(init: Option<StyleInit>, get: StyleInit -> Option<T>): Option<T> {
    if init.Some? then get(init.value) else None
  }

  class StyleImpl {
    var classes: ClassSet
    var backgroundColor: Option<string>
    var color: Option<string>
    var fontFamily: Option<string>
    var fontSize: Option<string>
    var fontWeight: Option<string>
    var textAlign: Option<string>
    var verticalAlign: Option<string>
    var padding: Option<string>
    var margin: Option<string>
    var icon: Option<string>
    var rounded: bool
    var border: Option<int>

    /** Supplied classes are shared, not copied; absent classes become a fresh
        empty set; `rounded` holds only when it was given as true; every other
        field is copied and absent when not given. */
    constructor(init: Option<StyleInit>)
      ensures init.Some? && init.value.classes.Some? ==> classes == init.value.classes.value
      ensures init.None? || init.value.classes.None? ==> fresh(classes) && classes.items == []
      ensures rounded <==> Field(init, (i: StyleInit) => i.rounded) == Some(true)
      ensures border == Field(init, (i: StyleInit) => i.border)
      ensures icon == Field(init, (i: StyleInit) => i.icon)
      ensures backgroundColor == Field(init, (i: StyleInit) => i.backgroundColor)
      ensures color == Field(init, (i: StyleInit) => i.color)
      ensures fontFamily == Field(init, (i: StyleInit) => i.fontFamily)
      ensures fontSize == Field(init, (i: StyleInit) => i.fontSize)
      ensures fontWeight == Field(init, (i: StyleInit) => i.fontWeight)
      ensures textAlign == Field(init, (i: StyleInit) => i.textAlign)
      ensures verticalAlign == Field(init, (i: StyleInit) => i.verticalAlign)
      ensures padding == Field(init, (i: StyleInit) => i.padding)
      ensures margin == Field(init, (i: StyleInit) => i.margin)
    {
      if init.Some? && init.value.classes.Some? {
        classes := init.value.classes.value;
      } else {
        classes := new ClassSet();
      }
      backgroundColor := Field(init, (i: StyleInit) => i.backgroundColor);
      color := Field(init, (i: StyleInit) => i.color);
      fontFamily := Field(init, (i: StyleInit) => i.fontFamily);
      fontSize := Field(init, (i: StyleInit) => i.fontSize);
      fontWeight := Field(init, (i: StyleInit) => i.fontWeight);
      textAlign := Field(init, (i: StyleInit) => i.textAlign);
      verticalAlign := Field(init, (i: StyleInit) => i.verticalAlign);
      padding := Field(init, (i: StyleInit) => i.padding);
      margin := Field(init, (i: StyleInit) => i.margin);
      icon := Field(init, (i: StyleInit) => i.icon);
      rounded := Field(init, (i: StyleInit) => i.rounded) == Some(true);
      border := Field(init, (i: StyleInit) => i.border);
    }
  }

  /** An example, not a general property: two styles built from one
      initialiser share its class set, so an addition through one is seen
      through the other. The constructor's contract states the aliasing in
      general. */
  method SharedClasses(shared: ClassSet) returns (a: StyleImpl, b: StyleImpl)
    modifies shared
    ensures a.classes == b.classes == shared
    ensures Highlight in b.classes.items
  {
    var init := StyleInit(Some(shared), None, None, None, None, None, None, None, None, None, None, None, None);
    a := new StyleImpl(Some(init));
    b := new StyleImpl(Some(init));
    a.classes.Add(Highlight);
  }
}
