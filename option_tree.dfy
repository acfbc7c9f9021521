/**
 * The native select's children and the list the widget renders from them
 * (`populateList`, index.js:141-175), with the class markers that the
 * handlers move around (`selected`, `active`).
 */
module OptionTree {
  import opened Wrappers

  /**
   * A child of the native control: an `<option>` or, for any other tag, a
   * group that `populateList` renders as `cs-optgroup`. `optgroup` says whether
   * the tag is `OPTGROUP`, which only the placeholder code looks at.
   */
  datatype Node =
    | OptionEl(text: string, value: string, disabled: bool, selected: bool)
    | GroupEl(text: string, children: seq<Node>, optgroup: bool)

  /**
   * A rendered `li.cs-option`. A leaf mirrors an option; a group (`cs-optgroup`)
   * holds the items of its nested `ul.cs-optgroup-list`. Only leaves ever carry
   * the `disabled` class; either kind can carry `selected` and `active`.
   */
  datatype Item =
    | Leaf(text: string, value: string, disabled: bool, selected: bool, active: bool)
    | Group(text: string, children: seq<Item>, selected: bool, active: bool)

  /** The guard of both option handlers: `!hasClass(option, 'disabled') || hasClass(option, 'cs-optgroup')`. */
  predicate Interactive(it: Item)
  {
    it.Group? || !it.disabled
  }

  /** A position in the rendered tree: the index among siblings at every level. */
  type Path = seq<nat>

  // ---------------------------------------------------------------------------
  // Rendering

  /** `it` is what `populateList` renders for `n`: same text, same kind, copied markers, nothing active. */
  predicate Mirrors(n: Node, it: Item)
    decreases n
  {
    match n
    case OptionEl(t, v, d, s) => it == Leaf(t, v, d, s, false)
    case GroupEl(t, cs, _) =>
      it.Group? && it.text == t && !it.selected && !it.active &&
      |it.children| == |cs| &&
      forall i :: 0 <= i < |cs| ==> Mirrors(cs[i], it.children[i])
  }

  /** One item per child, in source order. */
  predicate MirrorsAll(ns: seq<Node>, its: seq<Item>)
  {
    |ns| == |its| && forall i :: 0 <= i < |ns| ==> Mirrors(ns[i], its[i])
  }

  /** `populateList`: appends one item per child in order, recursing into groups. */
  method PopulateList(children: seq<Node>) returns (items: seq<Item>)
    ensures MirrorsAll(children, items)
    decreases children
  {
    items := [];
    var i := 0;
    while i < |children|
      invariant 0 <= i <= |children|
      invariant |items| == i
      invariant forall j :: 0 <= j < i ==> Mirrors(children[j], items[j])
    {
      var entry;
      match children[i] {
        case OptionEl(t, v, d, s) =>
          entry := Leaf(t, v, d, s, false);
        case GroupEl(t, cs, _) =>
          var sub := PopulateList(cs);
          entry := Group(t, sub, false, false);
      }
      items := items + [entry];
      i := i + 1;
    }
  }

  /** Rendering is a function of the children: two renderings of the same children are equal. */
  lemma {:induction false} MirrorsUnique(n: Node, a: Item, b: Item)
    requires Mirrors(n, a) && Mirrors(n, b)
    ensures a == b
    decreases n
  {
    match n
    case OptionEl(_, _, _, _) =>
    case GroupEl(_, cs, _) =>
      forall i | 0 <= i < |cs|
        ensures a.children[i] == b.children[i]
      {
        MirrorsUnique(cs[i], a.children[i], b.children[i]);
      }
      assert a.children == b.children;
  }

  /** `find(realSelect, 'option')`: every option element in document order. */
  function Flatten(ns: seq<Node>): (r: seq<Node>)
    ensures forall k :: 0 <= k < |r| ==> r[k].OptionEl?
    decreases ns
  {
    if |ns| == 0 then []
    else
      (match ns[0]
       case OptionEl(_, _, _, _) => [ns[0]]
       case GroupEl(_, cs, _) => Flatten(cs))
      + Flatten(ns[1..])
  }

  /** The rendered leaves in document order. */
  function LeafItems(its: seq<Item>): (r: seq<Item>)
    ensures forall k :: 0 <= k < |r| ==> r[k].Leaf?
    decreases its
  {
    if |its| == 0 then []
    else
      (match its[0]
       case Leaf(_, _, _, _, _) => [its[0]]
       case Group(_, cs, _, _) => LeafItems(cs))
      + LeafItems(its[1..])
  }

  /** The selected flags of the native options, in the order of `find(realSelect, 'option')`. */
  function NativeFlags(ns: seq<Node>): (r: seq<bool>)
    ensures |r| == |Flatten(ns)|
    ensures forall k :: 0 <= k < |r| ==> r[k] == Flatten(ns)[k].selected
  {
    var f := Flatten(ns);
    seq(|f|, k requires 0 <= k < |f| => f[k].selected)
  }

  lemma MirrorsAllConcat(a: seq<Node>, b: seq<Node>, c: seq<Item>, d: seq<Item>)
    requires MirrorsAll(a, c) && MirrorsAll(b, d)
    ensures MirrorsAll(a + b, c + d)
  {
    forall i | 0 <= i < |a + b|
      ensures Mirrors((a + b)[i], (c + d)[i])
    {
      if i < |a| {
        assert (a + b)[i] == a[i] && (c + d)[i] == c[i];
      } else {
        assert (a + b)[i] == b[i - |a|] && (c + d)[i] == d[i - |a|];
      }
    }
  }

  /**
   * The rendered leaves, read in document order, mirror the native options one
   * for one: as many selectable items as options, same order, same markers.
   */
  lemma {:induction false} MirrorsFlatten(ns: seq<Node>, its: seq<Item>)
    requires MirrorsAll(ns, its)
    ensures MirrorsAll(Flatten(ns), LeafItems(its))
    decreases ns
  {
    if |ns| > 0 {
      assert MirrorsAll(ns[1..], its[1..]) by {
        forall i | 0 <= i < |ns| - 1
          ensures Mirrors(ns[1..][i], its[1..][i])
        {
          assert ns[1..][i] == ns[i + 1] && its[1..][i] == its[i + 1];
        }
      }
      MirrorsFlatten(ns[1..], its[1..]);
      assert Mirrors(ns[0], its[0]);
      match ns[0]
      case OptionEl(_, _, _, _) =>
        assert MirrorsAll([ns[0]], [its[0]]);
        MirrorsAllConcat([ns[0]], Flatten(ns[1..]), [its[0]], LeafItems(its[1..]));
      case GroupEl(_, cs, _) =>
        MirrorsFlatten(cs, its[0].children);
        MirrorsAllConcat(Flatten(cs), Flatten(ns[1..]), LeafItems(its[0].children), LeafItems(its[1..]));
    }
  }

  // ---------------------------------------------------------------------------
  // Paths

  predicate ValidPath(its: seq<Item>, p: Path)
    decreases p
  {
    |p| > 0 && p[0] < |its| &&
    (|p| > 1 ==> its[p[0]].Group? && ValidPath(its[p[0]].children, p[1..]))
  }

  /** The item that a path designates. */
  function At(its: seq<Item>, p: Path): Item
    requires ValidPath(its, p)
    decreases p
  {
    if |p| == 1 then its[p[0]] else At(its[p[0]].children, p[1..])
  }

  /** The sibling list (`parent(option)`) that holds the item at p. */
  function ListAt(its: seq<Item>, p: Path): seq<Item>
    requires ValidPath(its, p)
    decreases p
  {
    if |p| == 1 then its else ListAt(its[p[0]].children, p[1..])
  }

  /** `indexInParent(option)`: the position of the item among its siblings. */
  function IndexInParent(p: Path): nat
    requires |p| > 0
  {
    p[|p| - 1]
  }

  // ---------------------------------------------------------------------------
  // Markers

  datatype Marker = SelectedMark | ActiveMark

  predicate Has(it: Item, m: Marker)
  {
    match m
    case SelectedMark => it.selected
    case ActiveMark => it.active
  }

  /** The number of items carrying m in the subtree rooted at it (it included). */
  function ItemCount(it: Item, m: Marker): nat
    decreases it
  {
    (if Has(it, m) then 1 else 0) + (if it.Group? then MarkCount(it.children, m) else 0)
  }

  /** The number of items carrying m anywhere in the list its. */
  function MarkCount(its: seq<Item>, m: Marker): nat
    decreases its
  {
    if |its| == 0 then 0 else ItemCount(its[0], m) + MarkCount(its[1..], m)
  }

  lemma {:induction false} MarkCountUpdate(its: seq<Item>, i: nat, x: Item, m: Marker)
    requires i < |its|
    ensures MarkCount(its[i := x], m) == MarkCount(its, m) - ItemCount(its[i], m) + ItemCount(x, m)
    decreases i
  {
    if i == 0 {
      assert its[i := x][1..] == its[1..];
    } else {
      MarkCountUpdate(its[1..], i - 1, x, m);
      assert its[i := x][1..] == its[1..][i - 1 := x];
    }
  }

  lemma {:induction false} MarkCountAllZero(its: seq<Item>, m: Marker)
    requires forall k :: 0 <= k < |its| ==> ItemCount(its[k], m) == 0
    ensures MarkCount(its, m) == 0
    decreases its
  {
    if |its| > 0 {
      MarkCountAllZero(its[1..], m);
    }
  }

  /** No path reaches a marked item in a list without that marker. */
  lemma {:induction false} UnmarkedAt(its: seq<Item>, p: Path, m: Marker)
    requires ValidPath(its, p) && MarkCount(its, m) == 0
    ensures !Has(At(its, p), m)
    decreases p
  {
    ItemCountAt(its, p[0], m);
    if |p| > 1 {
      UnmarkedAt(its[p[0]].children, p[1..], m);
    }
  }

  lemma {:induction false} ItemCountAt(its: seq<Item>, i: nat, m: Marker)
    requires i < |its|
    ensures ItemCount(its[i], m) <= MarkCount(its, m)
    decreases i
  {
    if i > 0 {
      ItemCountAt(its[1..], i - 1, m);
    }
  }

  /** Sets or clears the `selected` class of the item at p and of it alone. */
  function WithSelected(its: seq<Item>, p: Path, b: bool): (r: seq<Item>)
    requires ValidPath(its, p)
    ensures ValidPath(r, p) && At(r, p).selected == b
    ensures Erase(r) == Erase(its)
    ensures MarkCount(r, SelectedMark)
         == MarkCount(its, SelectedMark) - (if At(its, p).selected then 1 else 0) + (if b then 1 else 0)
    decreases p
  {
    var i := p[0];
    if |p| == 1 then
      var x := its[i].(selected := b);
      MarkCountUpdate(its, i, x, SelectedMark);
      its[i := x]
    else
      var x := its[i].(children := WithSelected(its[i].children, p[1..], b));
      MarkCountUpdate(its, i, x, SelectedMark);
      its[i := x]
  }

  /**
   * `findOne(select, '.cs-option.selected')`: the path of the first selected item
   * in document order, a group before the items it holds.
   */
  function FirstSelectedPath(its: seq<Item>): (r: Option<Path>)
    ensures r.Some? ==> ValidPath(its, r.value) && At(its, r.value).selected
    ensures r.None? <==> MarkCount(its, SelectedMark) == 0
    decreases its
  {
    if |its| == 0 then None
    else if its[0].selected then Some([0])
    else
      var inner := if its[0].Group? then FirstSelectedPath(its[0].children) else None;
      if inner.Some? then
        assert ([0] + inner.value)[1..] == inner.value;
        Some([0] + inner.value)
      else
        match FirstSelectedPath(its[1..])
        case None => None
        case Some(q) =>
          assert ([q[0] + 1] + q[1..])[1..] == q[1..];
          AtTail(its, q);
          Some([q[0] + 1] + q[1..])
  }

  lemma AtTail(its: seq<Item>, q: Path)
    requires |its| > 0 && ValidPath(its[1..], q)
    ensures ValidPath(its, [q[0] + 1] + q[1..])
    ensures At(its, [q[0] + 1] + q[1..]) == At(its[1..], q)
  {
    var p := [q[0] + 1] + q[1..];
    assert p[1..] == q[1..];
  }

  /** `removeClass(findOne(select, '.cs-option.selected'), 'selected')`: clears the first marker, if any. */
  function ClearFirstSelected(its: seq<Item>): (r: seq<Item>)
    ensures Erase(r) == Erase(its)
    ensures forall q :: ValidPath(its, q) ==> ValidPath(r, q)
    ensures MarkCount(its, SelectedMark) == 0 ==> r == its
    ensures MarkCount(its, SelectedMark) > 0 ==> MarkCount(r, SelectedMark) == MarkCount(its, SelectedMark) - 1
  {
    var r := match FirstSelectedPath(its)
      case None => its
      case Some(q) => WithSelected(its, q, false);
    SamePaths(its, r);
    r
  }

  /** Lists that agree once erased have the same valid paths. */
  lemma SamePaths(a: seq<Item>, b: seq<Item>)
    requires Erase(a) == Erase(b)
    ensures forall q :: ValidPath(a, q) <==> ValidPath(b, q)
  {
    forall q
      ensures ValidPath(a, q) <==> ValidPath(b, q)
    {
      ErasedPaths(a, b, q);
    }
  }

  /** Document order of the rendered items: each item, then the items of its nested list. */
  function Preorder(its: seq<Item>): seq<Item>
    decreases its
  {
    if |its| == 0 then []
    else [its[0]] + (if its[0].Group? then Preorder(its[0].children) else []) + Preorder(its[1..])
  }

  /** Reference definition of `findOne(…, '.selected')` on a flat sequence. */
  function FirstMarked(s: seq<Item>): Option<Item>
  {
    if |s| == 0 then None else if s[0].selected then Some(s[0]) else FirstMarked(s[1..])
  }

  lemma {:induction false} FirstMarkedConcat(a: seq<Item>, b: seq<Item>)
    ensures FirstMarked(a + b) == if FirstMarked(a).Some? then FirstMarked(a) else FirstMarked(b)
    decreases |a|
  {
    if |a| > 0 {
      assert (a + b)[0] == a[0];
      assert (a + b)[1..] == a[1..] + b;
      FirstMarkedConcat(a[1..], b);
    } else {
      assert a + b == b;
    }
  }

  function SelectedItem(its: seq<Item>): Option<Item>
  {
    match FirstSelectedPath(its)
    case None => None
    case Some(p) => Some(At(its, p))
  }

  /** The item found by FirstSelectedPath is the first selected item in document order. */
  lemma {:induction false} SelectedItemIsFirstInDocumentOrder(its: seq<Item>)
    ensures SelectedItem(its) == FirstMarked(Preorder(its))
    decreases its
  {
    if |its| > 0 {
      var below := if its[0].Group? then Preorder(its[0].children) else [];
      var rest := Preorder(its[1..]);
      assert Preorder(its) == [its[0]] + (below + rest);
      FirstMarkedConcat([its[0]], below + rest);
      FirstMarkedConcat(below, rest);
      if !its[0].selected {
        assert FirstMarked([its[0]]) == None;
        if its[0].Group? {
          SelectedItemIsFirstInDocumentOrder(its[0].children);
          var inner := FirstSelectedPath(its[0].children);
          if inner.Some? {
            assert ([0] + inner.value)[1..] == inner.value;
          }
        } else {
          assert FirstMarked(below) == None;
        }
        SelectedItemIsFirstInDocumentOrder(its[1..]);
        match FirstSelectedPath(its[1..])
        case None =>
        case Some(q) => AtTail(its, q);
      }
    }
  }

  // ---------------------------------------------------------------------------
  // Erasing markers

  /** The item without its `selected` and `active` markers, at every depth. */
  function EraseItem(it: Item): (r: Item)
    decreases it
  {
    match it
    case Leaf(t, v, d, _, _) => Leaf(t, v, d, false, false)
    case Group(t, cs, _, _) => Group(t, Erase(cs), false, false)
  }

  function Erase(its: seq<Item>): (r: seq<Item>)
    ensures |r| == |its|
    decreases its
  {
    seq(|its|, k requires 0 <= k < |its| => EraseItem(its[k]))
  }

  /** The item without its `active` markers, at every depth. */
  function Deactivate(it: Item): (r: Item)
    ensures ItemCount(r, ActiveMark) == 0
    decreases it
  {
    match it
    case Leaf(t, v, d, s, _) => Leaf(t, v, d, s, false)
    case Group(t, cs, s, _) => Group(t, ClearActive(cs), s, false)
  }

  /** `removeClass(options, 'active')` over a whole list and its nested lists. */
  function ClearActive(its: seq<Item>): (r: seq<Item>)
    ensures |r| == |its|
    ensures MarkCount(r, ActiveMark) == 0
    decreases its
  {
    var r := seq(|its|, k requires 0 <= k < |its| => Deactivate(its[k]));
    MarkCountAllZero(r, ActiveMark);
    r
  }

  lemma {:induction false} DeactivateTwice(it: Item)
    ensures Deactivate(Deactivate(it)) == Deactivate(it)
    decreases it
  {
    if it.Group? {
      ClearActiveTwice(it.children);
    }
  }

  lemma {:induction false} ClearActiveTwice(its: seq<Item>)
    ensures ClearActive(ClearActive(its)) == ClearActive(its)
    decreases its
  {
    forall k | 0 <= k < |its|
      ensures ClearActive(ClearActive(its))[k] == ClearActive(its)[k]
    {
      DeactivateTwice(its[k]);
    }
  }

  lemma {:induction false} EraseDeactivated(it: Item)
    ensures EraseItem(Deactivate(it)) == EraseItem(it)
    decreases it
  {
    if it.Group? {
      EraseClearActive(it.children);
    }
  }

  /** Erasing forgets everything that clearing `active` changes. */
  lemma {:induction false} EraseClearActive(its: seq<Item>)
    ensures Erase(ClearActive(its)) == Erase(its)
    decreases its
  {
    forall k | 0 <= k < |its|
      ensures Erase(ClearActive(its))[k] == Erase(its)[k]
    {
      EraseDeactivated(its[k]);
    }
  }

  /** Lists that agree once their markers are erased have the same paths, leading to the same items. */
  lemma {:induction false} ErasedPaths(a: seq<Item>, b: seq<Item>, p: Path)
    requires Erase(a) == Erase(b)
    ensures ValidPath(a, p) <==> ValidPath(b, p)
    ensures ValidPath(a, p) ==> EraseItem(At(a, p)) == EraseItem(At(b, p))
    decreases p
  {
    if |p| > 0 && p[0] < |a| {
      assert EraseItem(a[p[0]]) == Erase(a)[p[0]] == Erase(b)[p[0]] == EraseItem(b[p[0]]);
      if |p| > 1 && a[p[0]].Group? {
        ErasedPaths(a[p[0]].children, b[p[0]].children, p[1..]);
      }
    }
  }

  // ---------------------------------------------------------------------------
  // Hover

  /**
   * `optionHover` on the item at p once the guard has passed: every item of the
   * sibling list that holds it, nested lists included, loses `active`, then the
   * item gains it.
   */
  function Hover(its: seq<Item>, p: Path): (r: seq<Item>)
    requires ValidPath(its, p)
    ensures ValidPath(r, p) && At(r, p).active
    ensures ClearActive(r) == ClearActive(its)
    ensures ValidPath(r, p) && MarkCount(ListAt(r, p), ActiveMark) == 1
    decreases p
  {
    var i := p[0];
    if |p| == 1 then
      var c := ClearActive(its);
      var x := c[i].(active := true);
      MarkCountUpdate(c, i, x, ActiveMark);
      ClearActiveTwice(its);
      assert ClearActive(c[i := x]) == ClearActive(c) by {
        forall k | 0 <= k < |its|
          ensures ClearActive(c[i := x])[k] == ClearActive(c)[k]
        {
        }
      }
      c[i := x]
    else
      var x := its[i].(children := Hover(its[i].children, p[1..]));
      assert ClearActive(its[i := x]) == ClearActive(its) by {
        forall k | 0 <= k < |its|
          ensures ClearActive(its[i := x])[k] == ClearActive(its)[k]
        {
        }
      }
      its[i := x]
  }

  /** Hover changes `active` markers only. */
  lemma HoverKeepsRest(its: seq<Item>, p: Path)
    requires ValidPath(its, p)
    ensures Erase(Hover(its, p)) == Erase(its)
    ensures forall q :: ValidPath(its, q) <==> ValidPath(Hover(its, p), q)
  {
    var r := Hover(its, p);
    EraseClearActive(its);
    EraseClearActive(r);
    SamePaths(its, r);
  }

  /** On the top-level list, hovering leaves exactly one active item in the whole tree. */
  lemma TopLevelHoverSingleActive(its: seq<Item>, i: nat)
    requires i < |its|
    ensures ValidPath(its, [i])
    ensures MarkCount(Hover(its, [i]), ActiveMark) == 1
  {
  }

  /** The outcome of a top-level hover does not depend on which items were active before. */
  lemma TopLevelHoverForgetsActive(a: seq<Item>, b: seq<Item>, i: nat)
    requires i < |a| && ClearActive(a) == ClearActive(b)
    ensures |b| == |a|
    ensures Hover(a, [i]) == Hover(b, [i])
  {
  }

  // ---------------------------------------------------------------------------
  // Facts the widget relies on

  /** Every non-empty prefix of a valid path designates an ancestor. */
  lemma {:induction false} PrefixPath(its: seq<Item>, p: Path, k: nat)
    requires ValidPath(its, p) && 0 < k <= |p|
    ensures ValidPath(its, p[..k])
    decreases p
  {
    if k > 1 {
      PrefixPath(its[p[0]].children, p[1..], k - 1);
      assert p[..k][1..] == p[1..][..k - 1];
    }
  }

  /** A native child without its `selected` flag, at every depth. */
  function EraseNode(n: Node): Node
    decreases n
  {
    match n
    case OptionEl(t, v, d, _) => OptionEl(t, v, d, false)
    case GroupEl(t, cs, o) => GroupEl(t, EraseNodes(cs), o)
  }

  function EraseNodes(ns: seq<Node>): (r: seq<Node>)
    ensures |r| == |ns|
    decreases ns
  {
    seq(|ns|, k requires 0 <= k < |ns| => EraseNode(ns[k]))
  }

  /** The rendered list has the structure of the native children, whatever its markers. */
  predicate Shaped(ns: seq<Node>, its: seq<Item>)
  {
    MirrorsAll(EraseNodes(ns), Erase(its))
  }

  lemma {:induction false} MirrorsErased(n: Node, it: Item)
    requires Mirrors(n, it)
    ensures Mirrors(EraseNode(n), EraseItem(it))
    decreases n
  {
    match n
    case OptionEl(_, _, _, _) =>
    case GroupEl(_, cs, _) =>
      forall i | 0 <= i < |cs|
        ensures Mirrors(EraseNodes(cs)[i], Erase(it.children)[i])
      {
        MirrorsErased(cs[i], it.children[i]);
      }
  }

  /** A fresh rendering has the structure of its children. */
  lemma RenderingIsShaped(ns: seq<Node>, its: seq<Item>)
    requires MirrorsAll(ns, its)
    ensures Shaped(ns, its)
  {
    forall i | 0 <= i < |ns|
      ensures Mirrors(EraseNodes(ns)[i], Erase(its)[i])
    {
      MirrorsErased(ns[i], its[i]);
    }
  }

  /** Selected options anywhere under ns. */
  function SelectedOptions(ns: seq<Node>): nat
    decreases ns
  {
    if |ns| == 0 then 0
    else
      (match ns[0]
       case OptionEl(_, _, _, s) => if s then 1 else 0
       case GroupEl(_, cs, _) => SelectedOptions(cs))
      + SelectedOptions(ns[1..])
  }

  /** A fresh rendering carries as many `selected` markers as there are selected options. */
  lemma {:induction false} MirrorsSelectedCount(ns: seq<Node>, its: seq<Item>)
    requires MirrorsAll(ns, its)
    ensures MarkCount(its, SelectedMark) == SelectedOptions(ns)
    decreases ns
  {
    if |ns| > 0 {
      assert MirrorsAll(ns[1..], its[1..]) by {
        forall i | 0 <= i < |ns| - 1
          ensures Mirrors(ns[1..][i], its[1..][i])
        {
          assert ns[1..][i] == ns[i + 1] && its[1..][i] == its[i + 1];
        }
      }
      MirrorsSelectedCount(ns[1..], its[1..]);
      assert Mirrors(ns[0], its[0]);
      if ns[0].GroupEl? {
        MirrorsSelectedCount(ns[0].children, its[0].children);
      }
    }
  }

  /**
   * Clicking: the first `selected` marker is cleared, then the clicked item is
   * marked. When at most one item was marked before, exactly one is marked
   * after, and it is the clicked one.
   */
  lemma ClickMovesSelection(its: seq<Item>, p: Path)
    requires ValidPath(its, p) && MarkCount(its, SelectedMark) <= 1
    ensures ValidPath(ClearFirstSelected(its), p)
    ensures var r := WithSelected(ClearFirstSelected(its), p, true);
            At(r, p).selected && MarkCount(r, SelectedMark) == 1
  {
    var c := ClearFirstSelected(its);
    ErasedPaths(its, c, p);
    assert MarkCount(c, SelectedMark) == 0;
    UnmarkedAt(c, p, SelectedMark);
  }
}
