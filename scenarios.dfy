/** Clients of the widget that drive it through concrete interactions. */
module Scenarios {
  import opened Wrappers
  import opened OptionTree
  import opened Settings
  import opened Geometry
  import opened Widgets

  lemma FirstOfThreeSelected(its: seq<Item>)
    requires its == [Leaf("A", "a", false, false, false), Leaf("B", "b", false, true, false), Leaf("C", "c", false, false, false)]
    ensures FirstSelectedPath(its) == Some([1])
  {
    assert its[1..] == [its[1], its[2]];
    assert FirstSelectedPath(its[1..]) == Some([0]);
    assert [1] + [0][1..] == [1];
  }

  lemma FlattenThreeOptions(a: Node, b: Node, c: Node)
    requires a.OptionEl? && b.OptionEl? && c.OptionEl?
    ensures Flatten([a, b, c]) == [a, b, c]
  {
    assert Flatten([c]) == [c];
    assert [a, b, c][1..] == [b, c] && [b, c][1..] == [c];
  }

  lemma FlattenGroupThenOption(d: Node, e: Node, f: Node)
    requires d.OptionEl? && e.OptionEl? && f.OptionEl?
    ensures Flatten([GroupEl("G", [d, e], true), f]) == [d, e, f]
  {
    assert Flatten([d, e]) == [d, e] by {
      assert [d, e][1..] == [e];
      assert Flatten([e]) == [e];
    }
    assert [GroupEl("G", [d, e], true), f][1..] == [f];
    assert Flatten([f]) == [f];
  }

  /** A widget built from the options A, B, C with B selected. */
  method BuildThreeOptions(g: Placement) returns (w: Widget)
    ensures fresh(w) && fresh(w.native) && w.Valid()
    ensures w.items == [Leaf("A", "a", false, false, false), Leaf("B", "b", false, true, false), Leaf("C", "c", false, false, false)]
    ensures w.native.Length == 3 && w.labelText == "B" && w.changeEvents == 0
  {
    var m := new CustomSelect(map["placeholder" := Str("")]);
    var a := OptionEl("A", "a", false, false);
    var b := OptionEl("B", "b", false, true);
    var c := OptionEl("C", "c", false, false);
    assert PlaceholderFor(Str(""), [a, b, c]) == Ok(Str("A"));
    var v := m.ReplaceDOMElement(NativeSelect([a, b, c], false, map[]), g);
    assert v != null;
    w := v;
    assert w.items == [Leaf("A", "a", false, false, false), Leaf("B", "b", false, true, false), Leaf("C", "c", false, false, false)];
    FlattenThreeOptions(a, b, c);
    FirstOfThreeSelected(w.items);
    assert At(w.items, [1]).text == "B";
  }

  /**
   * Options A, B, C with B selected: the label starts as "B"; clicking C
   * selects native option 2, sets the label to "C", fires one change event and
   * closes the widget.
   */
  method ClickThirdOption(g: Placement)
    returns (before: string, after: string, flags: seq<bool>, events: nat, isOpen: bool)
    ensures before == "B" && after == "C"
    ensures flags == [false, false, true] && events == 1 && !isOpen
  {
    var w := BuildThreeOptions(g);
    before := w.labelText;
    var thrown := w.OptionClick([2]);
    assert OnlyAt(3, 2) == [false, false, true];
    after, flags, events, isOpen := w.labelText, w.native[..], w.changeEvents, w.open;
  }

  /**
   * A group G holding D and E, then an ungrouped F. Clicking F writes the
   * native selection at F's index among its siblings, 1, so the native control
   * ends with E selected, not F at flattened index 2.
   */
  method ClickOptionAfterGroup(g: Placement)
    returns (after: string, flags: seq<bool>)
    ensures after == "F"
    ensures flags == [false, true, false]
  {
    var m := new CustomSelect(map["placeholder" := Str("")]);
    var d := OptionEl("D", "d", false, false);
    var e := OptionEl("E", "e", false, false);
    var f := OptionEl("F", "f", false, false);
    var w := m.ReplaceDOMElement(NativeSelect([GroupEl("G", [d, e], true), f], false, map[]), g);
    assert w != null;
    FlattenGroupThenOption(d, e, f);
    assert w.native.Length == 3;
    assert w.items[1] == Leaf("F", "f", false, false, false);
    var thrown := w.OptionClick([1]);
    assert OnlyAt(3, 1) == [false, true, false];
    after, flags := w.labelText, w.native[..];
  }

  lemma RenderTwoOptions(its: seq<Item>)
    requires MirrorsAll([OptionEl("A", "a", false, false), OptionEl("B", "b", false, false)], its)
    ensures its == [Leaf("A", "a", false, false, false), Leaf("B", "b", false, false, false)]
  {
    assert Mirrors(OptionEl("A", "a", false, false), its[0]);
    assert Mirrors(OptionEl("B", "b", false, false), its[1]);
  }

  lemma FlattenTwoOptions(a: Node, b: Node)
    requires a.OptionEl? && b.OptionEl?
    ensures Flatten([a, b]) == [a, b]
  {
    assert [a, b][1..] == [b];
    assert Flatten([b]) == [b];
  }

  /** A manager tracking one widget built from the options A and B, neither selected. */
  method BuildTwoOptions(g: Placement) returns (m: CustomSelect, w: Widget)
    ensures fresh(m) && fresh(w) && fresh(w.native) && m.Valid() && m.elements == [w]
    ensures !m.bodyListenerBound && m.pendingBinds == 0
    ensures w.Valid() && !w.open && !w.disabled && w.changeEvents == 0
    ensures w.items == [Leaf("A", "a", false, false, false), Leaf("B", "b", false, false, false)]
    ensures w.native.Length == 2
  {
    m := new CustomSelect(map["placeholder" := Str("")]);
    var a := OptionEl("A", "a", false, false);
    var b := OptionEl("B", "b", false, false);
    assert PlaceholderFor(Str(""), [a, b]) == Ok(Str("A"));
    var v := m.ReplaceDOMElement(NativeSelect([a, b], false, map[]), g);
    assert v != null;
    w := v;
    RenderTwoOptions(w.items);
    FlattenTwoOptions(a, b);
  }

  /**
   * Two clicks on the container at its centre. The first opens the widget;
   * the body listener it schedules is not registered yet, so the body does
   * nothing. Once it is registered, the second click closes the widget in
   * `toggleFocus`, which also unregisters the listener before the click
   * reaches the body.
   */
  method ContainerClickTogglesOpen(g: Placement)
    returns (openedOnce: bool, boundAfterTick: bool, openAfterClick: bool, boundAfterClick: bool)
    ensures openedOnce && boundAfterTick
    ensures !openAfterClick && !boundAfterClick
  {
    var m, w := BuildTwoOptions(g);
    var box := Rect(0, 0, 100, 40);
    m.ContainerClick(w, g, 50, 20, [box]);
    assert m.elements[0] == w;
    openedOnce := w.open;
    m.Tick();
    boundAfterTick := m.bodyListenerBound;
    m.ContainerClick(w, g, 50, 20, [box]);
    openAfterClick, boundAfterClick := w.open, m.bodyListenerBound;
  }

  /**
   * A click on an option closes the widget but leaves the body listener
   * registered. The next click on the container reopens the widget, and the
   * same click, reaching the body, fails the as-written outside test at the
   * container's own centre: the widget closes again at once and the listener
   * is unregistered. The registration that click scheduled then runs, leaving
   * the listener registered with the widget closed.
   */
  method ContainerClickAfterOptionClick(g: Placement)
    returns (boundAfterOption: bool, openAfterClick: bool, boundAfterClick: bool, openAfterTick: bool, boundAfterTick: bool)
    ensures boundAfterOption
    ensures !openAfterClick && !boundAfterClick
    ensures !openAfterTick && boundAfterTick
  {
    var m, w := BuildTwoOptions(g);
    var box := Rect(0, 0, 100, 40);
    m.ContainerClick(w, g, 50, 20, [box]);
    assert m.elements[0] == w;
    m.Tick();
    var thrown := w.OptionClick([1]);
    boundAfterOption := m.bodyListenerBound;
    assert Inside(50, 20, box) && OutsideAsWritten(50, 20, box);
    m.ContainerClick(w, g, 50, 20, [box]);
    openAfterClick, boundAfterClick := w.open, m.bodyListenerBound;
    m.Tick();
    openAfterTick, boundAfterTick := w.open, m.bodyListenerBound;
  }

  /**
   * A click elsewhere on the page closes an open widget; the widget keeps its
   * list and label, so after reopening it, clicking B selects native option
   * 1, sets the label to "B" and fires one change event.
   */
  method ReopenAndClickAfterBlur(g: Placement)
    returns (closedByBody: bool, reopened: bool, after: string, flags: seq<bool>, events: nat)
    ensures closedByBody && reopened
    ensures after == "B" && flags == [false, true] && events == 1
  {
    var m, w := BuildTwoOptions(g);
    var box := Rect(0, 0, 100, 40);
    m.ContainerClick(w, g, 50, 20, [box]);
    assert m.elements[0] == w;
    m.Tick();
    m.BodyClick(500, 500, [box]);
    closedByBody := !w.open;
    m.ContainerClick(w, g, 50, 20, [box]);
    reopened := w.open;
    var thrown := w.OptionClick([1]);
    assert OnlyAt(2, 1) == [false, true];
    after, flags, events := w.labelText, w.native[..], w.changeEvents;
  }
}
