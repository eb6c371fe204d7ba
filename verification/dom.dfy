/** The part of the preview document the inspector touches: elements with a tag name, an
    `id`, a class list and an optional `style` attribute, and the `__inspect-hover` class
    that marks the highlighted element. */
module Dom {
  import opened Wrappers
  import opened Text
  import opened Protocol

  type ElemId = nat

  /** The class the shim adds to the element under the pointer. */
  const HoverClass: string := "__inspect-hover"

  /** `id` is the element's `id` property (the empty string when the attribute is absent);
      `classes` is its class list in order; `style` is `getAttribute("style")`. */
  datatype Element = Element(tagName: string, id: string, classes: seq<string>, style: Option<string>)

  /** `classList.add(t)`: appends `t` unless it is already present. */
  function AddClass(classes: seq<string>, t: string): (r: seq<string>)
    ensures t in r
    ensures forall u :: u != t ==> (u in r <==> u in classes)
    ensures |classes| <= |r| && r[..|classes|] == classes
    ensures |r| <= |classes| + 1
  {
    if t in classes then classes else classes + [t]
  }

  /** `classList.remove(t)`: drops every occurrence of `t` and keeps the rest in order. */
  function RemoveClass(classes: seq<string>, t: string): (r: seq<string>)
    ensures t !in r
    ensures forall u :: u != t ==> (u in r <==> u in classes)
    ensures |r| <= |classes|
  {
    if classes == [] then []
    else if classes[0] == t then RemoveClass(classes[1..], t)
    else [classes[0]] + RemoveClass(classes[1..], t)
  }

  /** Removing a class that is not there changes nothing. */
  lemma {:induction false} RemoveAbsent(classes: seq<string>, t: string)
    requires t !in classes
    ensures RemoveClass(classes, t) == classes
  {
    if classes != [] {
      RemoveAbsent(classes[1..], t);
      assert classes == [classes[0]] + classes[1..];
    }
  }

  /** Removing a class after adding it leaves the list as removing it alone would:
      add/remove of the highlight class never disturbs the element's other classes. */
  lemma {:induction false} RemoveAfterAdd(classes: seq<string>, t: string)
    ensures RemoveClass(AddClass(classes, t), t) == RemoveClass(classes, t)
  {
    if t !in classes {
      RemoveAppend(classes, [t], t);
      assert RemoveClass([t], t) == [] by {
        assert [t][1..] == [];
      }
      assert RemoveClass(classes, t) + [] == RemoveClass(classes, t);
    }
  }

  lemma {:induction false} RemoveAppend(a: seq<string>, b: seq<string>, t: string)
    ensures RemoveClass(a + b, t) == RemoveClass(a, t) + RemoveClass(b, t)
  {
    if a == [] {
      assert a + b == b;
    } else {
      assert (a + b)[0] == a[0] && (a + b)[1..] == a[1..] + b;
      RemoveAppend(a[1..], b, t);
    }
  }

  /** Removing twice is removing once. */
  lemma {:induction false} RemoveTwice(classes: seq<string>, t: string)
    ensures RemoveClass(RemoveClass(classes, t), t) == RemoveClass(classes, t)
  {
    RemoveAbsent(RemoveClass(classes, t), t);
  }

  predicate Highlighted(el: Element)
  {
    HoverClass in el.classes
  }

  function WithHighlight(el: Element): Element
  {
    el.(classes := AddClass(el.classes, HoverClass))
  }

  function WithoutHighlight(el: Element): Element
  {
    el.(classes := RemoveClass(el.classes, HoverClass))
  }

  /** Two elements that differ at most in the highlight class. */
  predicate SameButHighlight(a: Element, b: Element)
  {
    && a.tagName == b.tagName && a.id == b.id && a.style == b.style
    && RemoveClass(a.classes, HoverClass) == RemoveClass(b.classes, HoverClass)
  }

  /** Highlighting and un-highlighting touch nothing but the highlight class. */
  lemma HighlightOnlyTouchesHover(el: Element)
    ensures Highlighted(WithHighlight(el)) && !Highlighted(WithoutHighlight(el))
    ensures SameButHighlight(el, WithHighlight(el))
    ensures SameButHighlight(el, WithoutHighlight(el))
  {
    RemoveAfterAdd(el.classes, HoverClass);
    RemoveTwice(el.classes, HoverClass);
  }

  /** The `styles` field of a pick: the `style` attribute, or an em dash when it is
      absent or empty (`getAttribute("style") || "—"`). */
  function StyleOrDash(style: Option<string>): (r: string)
    ensures r != ""
    ensures style.Some? && style.value != "" ==> r == style.value
    ensures style.None? ==> r == "\U{2014}"
    ensures style == Some("") ==> r == "\U{2014}"
  {
    match style
    case None => "\U{2014}"
    case Some(s) => if s == "" then "\U{2014}" else s
  }

  /** The snapshot as the click handler builds it: `className` is the element's whole
      class attribute, which at that moment still carries the highlight class. */
  function PickAsWritten(el: Element): Snapshot
  {
    Snapshot(ToLower(el.tagName), el.id, Join(el.classes, " "), StyleOrDash(el.style))
  }

  /** The snapshot with the inspector's own highlight class left out of `className`. */
  function Pick(el: Element): Snapshot
  {
    Snapshot(ToLower(el.tagName), el.id, Join(RemoveClass(el.classes, HoverClass), " "),
             StyleOrDash(el.style))
  }

  /** What is reported for an element does not depend on whether the inspector has
      highlighted it: the pick of the highlighted and of the plain element agree. */
  lemma PickIgnoresHighlight(el: Element)
    ensures Pick(WithHighlight(el)) == Pick(WithoutHighlight(el)) == Pick(el)
  {
    RemoveAfterAdd(el.classes, HoverClass);
    RemoveTwice(el.classes, HoverClass);
  }

  /** As written, the pointer's highlight leaks into the report: a `<DIV id="x"
      class="y z">` with no style, highlighted by the mouse move that precedes every
      click, is reported with class `y z __inspect-hover`. */
  lemma PickAsWrittenLeaksHighlight()
    ensures var el := Element("DIV", "x", ["y", "z"], None);
      && PickAsWritten(WithHighlight(el)) == Snapshot("div", "x", "y z __inspect-hover", "\U{2014}")
      && PickAsWritten(WithHighlight(el)) != PickAsWritten(el)
      && Pick(WithHighlight(el)) == Snapshot("div", "x", "y z", "\U{2014}")
  {
    var el := Element("DIV", "x", ["y", "z"], None);
    assert WithHighlight(el).classes == ["y", "z", HoverClass];
    ExampleClassNames();
    ExampleRemove();
    assert ToLower("DIV") == "div";
  }

  /** No class token holds a space, as the tokens of a class attribute never do. */
  predicate Tokens(classes: seq<string>)
  {
    forall k :: 0 <= k < |classes| ==> ' ' !in classes[k]
  }

  /** Adding or removing the highlight class keeps a list of tokens a list of tokens. */
  lemma HighlightKeepsTokens(el: Element)
    requires Tokens(el.classes)
    ensures Tokens(WithHighlight(el).classes) && Tokens(WithoutHighlight(el).classes)
  {
    var added := WithHighlight(el).classes;
    var removed := WithoutHighlight(el).classes;
    forall k | 0 <= k < |added| ensures ' ' !in added[k] {
      if added[k] != HoverClass {
        assert added[k] in el.classes;
        var j :| 0 <= j < |el.classes| && el.classes[j] == added[k];
      }
    }
    forall k | 0 <= k < |removed| ensures ' ' !in removed[k] {
      assert removed[k] in removed;
      assert removed[k] in el.classes;
      var j :| 0 <= j < |el.classes| && el.classes[j] == removed[k];
    }
  }

  /** As written, the reported class string of a highlighted element names the highlight
      class as one of its tokens. */
  lemma PickAsWrittenShowsHighlight(el: Element)
    requires Tokens(el.classes) && Highlighted(el)
    ensures HoverClass in Split(PickAsWritten(el).className, ' ')
    ensures Split(PickAsWritten(el).className, ' ') == el.classes
  {
    assert [' '] == " ";
    SplitJoin(el.classes, ' ');
  }

  /** The corrected report never names the highlight class among its tokens. */
  lemma PickOmitsHighlight(el: Element)
    requires Tokens(el.classes)
    ensures HoverClass !in Split(Pick(el).className, ' ')
  {
    var own := RemoveClass(el.classes, HoverClass);
    HighlightKeepsTokens(el);
    assert [' '] == " ";
    if own == [] {
      assert Split(Pick(el).className, ' ') == [""];
    } else {
      SplitJoin(own, ' ');
    }
  }

  lemma ExampleClassNames()
    ensures Join(["y", "z", HoverClass], " ") == "y z __inspect-hover"
    ensures Join(["y", "z"], " ") == "y z"
  {
    var hovered := ["y", "z", HoverClass];
    assert hovered[1..] == ["z", HoverClass] && ["z", HoverClass][1..] == [HoverClass];
    assert ["y", "z"][1..] == ["z"];
    assert Join(["z", HoverClass], " ") == "z" + " " + HoverClass;
    assert Join(hovered, " ") == "y" + " " + ("z" + " " + HoverClass);
  }

  lemma ExampleRemove()
    ensures RemoveClass(["y", "z", HoverClass], HoverClass) == ["y", "z"]
  {
    var hovered := ["y", "z", HoverClass];
    assert hovered[1..] == ["z", HoverClass] && ["z", HoverClass][1..] == [HoverClass];
    assert [HoverClass][1..] == [];
    assert |"y"| != |HoverClass| && |"z"| != |HoverClass|;
    assert RemoveClass([HoverClass], HoverClass) == [];
    assert RemoveClass(["z", HoverClass], HoverClass) == ["z"] + [];
  }
}
