/**
 * The `CustomSelect` manager and the widgets it builds (index.js:42-285), with
 * the DOM replaced by fields: class markers become booleans, the rendered list
 * a value, the native options' `selected` flags an array.
 */
module Widgets {
  import opened Wrappers
  import opened OptionTree
  import opened Settings
  import opened Geometry
  import opened Tracked

  /** A native `<select>` as the widget reads it: its children, `disabled`, and its data attributes. */
  datatype NativeSelect = NativeSelect(children: seq<Node>, disabled: bool, data: map<string, Value>)

  /** Native flags with exactly the option at index k selected. */
  function OnlyAt(n: nat, k: nat): (r: seq<bool>)
    requires k < n
    ensures |r| == n && r[k]
    ensures forall j :: 0 <= j < n && j != k ==> !r[j]
  {
    seq(n, j => j == k)
  }

  /** One built widget: the `div.cs-select` container and the native select it holds. */
  class Widget {
    /** The native children; the structure never changes after the build. */
    const children: seq<Node>
    /** The `disabled` class, copied from the native control at build time. */
    const disabled: bool
    /** `scopeSettings`, placeholder included. */
    const settings: map<string, Value>
    /** The `selected` flags of `find(realSelect, 'option')`. */
    const native: array<bool>
    /** The `open` and `above` classes of the container. */
    var open: bool
    var above: bool
    /** The rendered `ul.cs-list`, with its `selected` and `active` markers. */
    var items: seq<Item>
    /** The text of `.cs-label`. */
    var labelText: string
    /** Change events dispatched on the native control. */
    var changeEvents: nat

    /** One native flag per native option, and a rendered list with the native structure. */
    ghost predicate Valid()
      reads this
    {
      native.Length == |Flatten(children)| && Shaped(children, items)
    }

    /** The build steps after the placeholder is known (index.js:80-115). */
    constructor (source: NativeSelect, settings: map<string, Value>, placeholder: Value, g: Placement)
      ensures Valid()
      ensures children == source.children && disabled == source.disabled && this.settings == settings
      ensures MirrorsAll(source.children, items)
      ensures MarkCount(items, SelectedMark) == SelectedOptions(source.children)
      ensures fresh(native) && native[..] == NativeFlags(source.children)
      ensures labelText == LabelText(items, placeholder)
      ensures !open && above == OpensAbove(g) && changeEvents == 0
    {
      children := source.children;
      disabled := source.disabled;
      this.settings := settings;
      var flags := NativeFlags(source.children);
      native := new bool[|flags|](k requires 0 <= k < |flags| => flags[k]);
      var rendered := PopulateList(source.children);
      items := rendered;
      labelText := LabelText(rendered, placeholder);
      open := false;
      above := OpensAbove(g);
      changeEvents := 0;
      new;
      RenderingIsShaped(children, items);
      MirrorsSelectedCount(children, items);
      assert native[..] == flags;
    }

    /** `checkViewport`: sets `above` when the list must open upward, clears it otherwise. */
    method CheckViewport(g: Placement)
      modifies this`above
      ensures above == OpensAbove(g)
    {
      if OpensAbove(g) {
        above := true;
      } else {
        above := false;
      }
    }

    /** `optionHover`, run by the handler of the item at p alone. */
    method OptionHover(p: Path)
      requires Valid() && ValidPath(items, p)
      modifies this`items
      ensures Valid()
      ensures items == if Interactive(At(old(items), p)) then Hover(old(items), p) else old(items)
      ensures Interactive(At(old(items), p)) ==> At(items, p).active && MarkCount(ListAt(items, p), ActiveMark) == 1
      ensures ClearActive(items) == ClearActive(old(items))
    {
      if Interactive(At(items, p)) {
        HoverKeepsRest(items, p);
        items := Hover(items, p);
      }
    }

    /**
     * A `mousemove` over the item at p. The event bubbles, so the handlers of
     * the item and of every enclosing group item run, innermost first; the last
     * one, on the top-level item, clears `active` across the whole list.
     */
    method MouseMove(p: Path)
      requires Valid() && ValidPath(items, p)
      modifies this`items
      ensures Valid()
      ensures ValidPath(old(items), [p[0]])
      ensures Interactive(At(old(items), [p[0]])) ==>
                items == Hover(old(items), [p[0]]) && items[p[0]].active && MarkCount(items, ActiveMark) == 1
      ensures !Interactive(At(old(items), [p[0]])) ==> items == old(items)
    {
      PrefixPath(items, p, 1);
      assert p[..1] == [p[0]];
      ghost var before := items;
      var k := |p|;
      while k > 0
        invariant 0 <= k <= |p|
        invariant Valid()
        invariant ClearActive(items) == ClearActive(before)
        invariant forall q :: ValidPath(items, q) <==> ValidPath(before, q)
        invariant k == |p| ==> items == before
        invariant k == 0 && Interactive(At(before, [p[0]])) ==> items == Hover(before, [p[0]])
        invariant k == 0 && !Interactive(At(before, [p[0]])) ==> items == before
        decreases k
      {
        PrefixPath(before, p, k);
        ghost var prev := items;
        OptionHover(p[..k]);
        EraseClearActive(prev);
        EraseClearActive(items);
        SamePaths(prev, items);
        if k == 1 {
          EraseClearActive(before);
          ErasedPaths(before, prev, [p[0]]);
          if Interactive(At(before, [p[0]])) {
            TopLevelHoverForgetsActive(prev, before, p[0]);
          } else {
            assert |p| == 1;
          }
        }
        k := k - 1;
      }
    }

    /**
     * `optionClick` on the item at p. When the guard passes: the first
     * `selected` marker moves to the item, every native flag is cleared and the
     * one at `indexInParent(option)` is set, the label takes the item's text and
     * one change event fires. When that index is past the native options,
     * `realOptions[index].selected = true` throws after the flags were cleared.
     * Otherwise, and also when the guard fails, `open` is removed.
     */
    method OptionClick(p: Path) returns (thrown: bool)
      requires Valid() && ValidPath(items, p)
      modifies this`items, this`labelText, this`changeEvents, this`open, native
      ensures Valid()
      ensures !Interactive(At(old(items), p)) ==>
                !thrown && !open && items == old(items) && native[..] == old(native[..]) &&
                labelText == old(labelText) && changeEvents == old(changeEvents)
      ensures Interactive(At(old(items), p)) ==>
                items == WithSelected(ClearFirstSelected(old(items)), p, true) &&
                (thrown <==> IndexInParent(p) >= native.Length)
      ensures Interactive(At(old(items), p)) && !thrown ==>
                native[..] == OnlyAt(native.Length, IndexInParent(p)) &&
                labelText == At(old(items), p).text && changeEvents == old(changeEvents) + 1 && !open
      ensures Interactive(At(old(items), p)) && old(MarkCount(items, SelectedMark)) <= 1 ==>
                MarkCount(items, SelectedMark) == 1
      ensures Interactive(At(old(items), p)) && thrown ==>
                (forall j :: 0 <= j < native.Length ==> !native[j]) &&
                labelText == old(labelText) && changeEvents == old(changeEvents) && open == old(open)
    {
      var option := At(items, p);
      var index := IndexInParent(p);
      thrown := false;
      if Interactive(option) {
        if MarkCount(items, SelectedMark) <= 1 {
          ClickMovesSelection(items, p);
        }
        var cleared := ClearFirstSelected(items);
        items := WithSelected(cleared, p, true);
        var j := 0;
        while j < native.Length
          invariant 0 <= j <= native.Length
          invariant forall i :: 0 <= i < j ==> !native[i]
          modifies native
          decreases native.Length - j
        {
          native[j] := false;
          j := j + 1;
        }
        if index < native.Length {
          native[index] := true;
          labelText := option.text;
          changeEvents := changeEvents + 1;
        } else {
          thrown := true;
          return;
        }
      }
      open := false;
    }
  }

  /** Everything of a widget but `open` is as given: what blurring it leaves alone. */
  ghost predicate Kept(w: Widget, items: seq<Item>, labelText: string, above: bool, changeEvents: nat)
    reads w
  {
    w.items == items && w.labelText == labelText && w.above == above && w.changeEvents == changeEvents
  }

  /** The manager: the tracked native controls and the one body listener they share. */
  class CustomSelect {
    /** `this.options`, the constructor options merged onto the defaults. */
    const options: map<string, Value>
    /** `this.elements`, one widget per tracked native control. */
    var elements: seq<Widget>
    /** `tryToBlur` is registered as a click listener on `document.body`. */
    var bodyListenerBound: bool
    /** Registrations scheduled with `setTimeout` that have not run yet. */
    var pendingBinds: nat

    ghost predicate Valid()
      reads this
    {
      Distinct(elements)
    }

    constructor (options: map<string, Value>)
      ensures Valid()
      ensures this.options == options && elements == [] && !bodyListenerBound && pendingBinds == 0
    {
      this.options := options;
      elements := [];
      bodyListenerBound := false;
      pendingBinds := 0;
    }

    /**
     * `replaceDOMelement` for one native control: per-element settings, the
     * placeholder, the rendered list, the label and the initial viewport check.
     * When the placeholder cannot be derived the code throws before touching
     * anything; here the result is null and the tracked list is left as it was,
     * so that a client may go on with the next control.
     */
    method ReplaceDOMElement(source: NativeSelect, g: Placement) returns (w: Widget?)
      requires Valid()
      modifies this`elements
      ensures Valid()
      ensures var current := if "placeholder" in options then Overridden(options, source.data, "placeholder") else Null;
              var ph := PlaceholderFor(current, source.children);
              (w == null <==> ph.Err?) &&
              (w == null ==> elements == old(elements)) &&
              (w != null ==>
                 fresh(w) && fresh(w.native) && elements == old(elements) + [w] &&
                 w.Valid() && w.children == source.children && w.disabled == source.disabled &&
                 w.settings.Keys == options.Keys + {"placeholder"} &&
                 w.settings["placeholder"] == ph.value &&
                 (forall k :: k in options && k != "placeholder" ==> w.settings[k] == Overridden(options, source.data, k)) &&
                 MirrorsAll(source.children, w.items) &&
                 w.native[..] == NativeFlags(source.children) &&
                 w.labelText == LabelText(w.items, ph.value) &&
                 !w.open && w.above == OpensAbove(g) && w.changeEvents == 0)
    {
      var scope := ResolveSettings(options, source.data);
      var current := Lookup(scope, "placeholder");
      match PlaceholderFor(current, source.children) {
        case Err(_) =>
          w := null;
        case Ok(ph) =>
          scope := scope["placeholder" := ph];
          w := new Widget(source, scope, ph, g);
          forall i | 0 <= i < |elements|
            ensures elements[i] != w
          {
          }
          elements := elements + [w];
      }
    }

    /** `triggerSelect` (reached through `getFocus`): opens a widget that is not disabled. */
    method TriggerSelect(w: Widget, g: Placement)
      modifies this`pendingBinds, w`open, w`above
      ensures !w.disabled ==> w.open && w.above == OpensAbove(g) && pendingBinds == old(pendingBinds) + 1
      ensures w.disabled ==> w.open == old(w.open) && w.above == old(w.above) && pendingBinds == old(pendingBinds)
    {
      if !w.disabled {
        w.CheckViewport(g);
        w.open := true;
        pendingBinds := pendingBinds + 1;
      }
    }

    /** `blurSelect` (reached through `blurFocus`): closes an open widget and unbinds the body listener. */
    method BlurSelect(w: Widget)
      modifies this`bodyListenerBound, w`open
      ensures !w.open
      ensures old(w.open) ==> !bodyListenerBound
      ensures !old(w.open) ==> bodyListenerBound == old(bodyListenerBound)
    {
      if w.open {
        w.open := false;
        bodyListenerBound := false;
      }
    }

    /** `toggleFocus`: a click on the container opens a closed widget and closes an open one. */
    method ToggleFocus(w: Widget, g: Placement)
      modifies this`pendingBinds, this`bodyListenerBound, w`open, w`above
      ensures !old(w.open) && !w.disabled ==>
                w.open && w.above == OpensAbove(g) &&
                pendingBinds == old(pendingBinds) + 1 && bodyListenerBound == old(bodyListenerBound)
      ensures !old(w.open) && w.disabled ==>
                !w.open && w.above == old(w.above) &&
                pendingBinds == old(pendingBinds) && bodyListenerBound == old(bodyListenerBound)
      ensures old(w.open) ==>
                !w.open && !bodyListenerBound && w.above == old(w.above) && pendingBinds == old(pendingBinds)
    {
      if !w.open {
        TriggerSelect(w, g);
      } else {
        BlurSelect(w);
      }
    }

    /** One scheduled `setTimeout` callback runs: the body listener is registered (again). */
    method Tick()
      modifies this`pendingBinds, this`bodyListenerBound
      ensures old(pendingBinds) > 0 ==> pendingBinds == old(pendingBinds) - 1 && bodyListenerBound
      ensures old(pendingBinds) == 0 ==> pendingBinds == 0 && bodyListenerBound == old(bodyListenerBound)
    {
      if pendingBinds > 0 {
        pendingBinds := pendingBinds - 1;
        bodyListenerBound := true;
      }
    }

    /**
     * `tryToBlur` for a click at (x, y): every tracked widget whose rectangle
     * passes the outside test is blurred; rects[i] is the rectangle of the
     * widget of elements[i].
     */
    method TryToBlur(x: int, y: int, rects: seq<Rect>)
      requires Valid() && |rects| == |elements|
      modifies this`bodyListenerBound, elements
      ensures elements == old(elements)
      ensures forall i :: 0 <= i < |elements| ==>
                elements[i].open == (old(elements[i].open) && !OutsideAsWritten(x, y, rects[i]))
      ensures forall i :: 0 <= i < |elements| && rects[i].top < rects[i].bottom ==> !elements[i].open
      ensures bodyListenerBound ==
                (old(bodyListenerBound) &&
                 forall i :: 0 <= i < |elements| ==> !(old(elements[i].open) && OutsideAsWritten(x, y, rects[i])))
      ensures forall i :: 0 <= i < |elements| ==> Kept(elements[i], old(elements[i].items), old(elements[i].labelText), old(elements[i].above), old(elements[i].changeEvents))
      ensures forall i :: 0 <= i < |elements| && old(elements[i].Valid()) ==> elements[i].Valid()
    {
      var i := 0;
      while i < |elements|
        invariant 0 <= i <= |elements|
        invariant elements == old(elements)
        invariant forall j :: 0 <= j < i ==>
                    elements[j].open == (old(elements[j].open) && !OutsideAsWritten(x, y, rects[j]))
        invariant forall j :: i <= j < |elements| ==> elements[j].open == old(elements[j].open)
        invariant forall j :: 0 <= j < |elements| ==> Kept(elements[j], old(elements[j].items), old(elements[j].labelText), old(elements[j].above), old(elements[j].changeEvents))
        invariant bodyListenerBound ==
                    (old(bodyListenerBound) &&
                     forall j :: 0 <= j < i ==> !(old(elements[j].open) && OutsideAsWritten(x, y, rects[j])))
        decreases |elements| - i
      {
        if OutsideAsWritten(x, y, rects[i]) {
          BlurSelect(elements[i]);
        }
        i := i + 1;
      }
      forall j | 0 <= j < |elements| && rects[j].top < rects[j].bottom
        ensures !elements[j].open
      {
        EveryPointIsOutside(x, y, rects[j]);
      }
    }

    /**
     * A click that reaches `document.body`: `tryToBlur` runs only when it is
     * registered there; otherwise nothing happens.
     */
    method BodyClick(x: int, y: int, rects: seq<Rect>)
      requires Valid() && |rects| == |elements|
      modifies this`bodyListenerBound, elements
      ensures elements == old(elements)
      ensures forall i :: 0 <= i < |elements| ==>
                elements[i].open == (old(elements[i].open) && !(old(bodyListenerBound) && OutsideAsWritten(x, y, rects[i])))
      ensures bodyListenerBound ==
                (old(bodyListenerBound) &&
                 forall i :: 0 <= i < |elements| ==> !(old(elements[i].open) && OutsideAsWritten(x, y, rects[i])))
      ensures forall i :: 0 <= i < |elements| ==> Kept(elements[i], old(elements[i].items), old(elements[i].labelText), old(elements[i].above), old(elements[i].changeEvents))
      ensures forall i :: 0 <= i < |elements| && old(elements[i].Valid()) ==> elements[i].Valid()
    {
      if bodyListenerBound {
        TryToBlur(x, y, rects);
      }
    }

    /**
     * A click on the container of w at (x, y): `toggleFocus` runs on the
     * container, then the click bubbles on to `document.body`, where the
     * listener, if still registered, tests every tracked widget. A listener
     * scheduled by this very click is not registered yet.
     */
    method ContainerClick(w: Widget, g: Placement, x: int, y: int, rects: seq<Rect>)
      requires Valid() && |rects| == |elements|
      modifies this`pendingBinds, this`bodyListenerBound, w`open, w`above, elements
      ensures elements == old(elements)
      ensures pendingBinds == old(pendingBinds) + (if !old(w.open) && !w.disabled then 1 else 0)
      ensures !old(w.open) && !w.disabled ==> w.above == OpensAbove(g)
      ensures old(w.open) || w.disabled ==> w.above == old(w.above)
      ensures w.items == old(w.items) && w.labelText == old(w.labelText) && w.changeEvents == old(w.changeEvents)
      ensures w !in elements ==> w.open == (!old(w.open) && !w.disabled)
      ensures forall i :: 0 <= i < |elements| ==>
                elements[i].open ==
                  ((if elements[i] == w then !old(w.open) && !w.disabled else old(elements[i].open)) &&
                   !(!old(w.open) && old(bodyListenerBound) && OutsideAsWritten(x, y, rects[i])))
      ensures bodyListenerBound ==
                (!old(w.open) && old(bodyListenerBound) &&
                 forall i :: 0 <= i < |elements| ==>
                   !((if elements[i] == w then !w.disabled else old(elements[i].open)) && OutsideAsWritten(x, y, rects[i])))
      ensures forall i :: 0 <= i < |elements| && elements[i] != w ==>
                Kept(elements[i], old(elements[i].items), old(elements[i].labelText), old(elements[i].above), old(elements[i].changeEvents))
      ensures forall i :: 0 <= i < |elements| && old(elements[i].Valid()) ==> elements[i].Valid()
      ensures old(w.Valid()) ==> w.Valid()
    {
      ToggleFocus(w, g);
      assert forall i :: 0 <= i < |elements| ==>
               elements[i].open == (if elements[i] == w then !old(w.open) && !w.disabled else old(elements[i].open));
      assert forall i :: 0 <= i < |elements| && elements[i] != w ==>
               Kept(elements[i], old(elements[i].items), old(elements[i].labelText), old(elements[i].above), old(elements[i].changeEvents));
      assert bodyListenerBound == (!old(w.open) && old(bodyListenerBound));
      label toggled:
      BodyClick(x, y, rects);
      assert forall i :: 0 <= i < |elements| ==>
               old@toggled(elements[i].open) == (if elements[i] == w then !old(w.open) && !w.disabled else old(elements[i].open));
    }

    /** `destroy(elem)`: the first occurrence of the widget leaves the list, or the last widget when it is absent. */
    method Destroy(w: Widget)
      requires Valid()
      modifies this`elements
      ensures Valid()
      ensures elements == RemoveTracked(old(elements), w)
      ensures w in old(elements) ==> w !in elements && multiset(elements) == multiset(old(elements)) - multiset{w}
    {
      SpliceKeepsDistinct(elements, IndexOf(elements, w));
      if w in elements {
        RemovePresent(elements, w);
      }
      elements := RemoveTracked(elements, w);
    }
  }
}
