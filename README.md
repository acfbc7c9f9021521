# chirashi-custom-select, modelled in Dafny

`CustomSelect` replaces each native single-select control with a styled dropdown.
It renders the control's options and option groups as a list, and it opens and
closes that list on clicks. It flips the list upward when there is no room below,
and it closes open widgets on a click elsewhere on the page. When an option is
clicked, it writes the selection back to the native control and fires a change
event. This project models that logic with the DOM replaced by plain data, and
proves what each step does.

Modules, one per part of `index.js`:

- `Kebab` (`kebab.dfy`): `kebabCase`. The global regular-expression replace, then ASCII lowercasing.
- `Settings` (`settings.dfy`): settings values and JavaScript truthiness. Also the per-element
  data-attribute overrides, the derived placeholder and the initial label text.
- `OptionTree` (`option_tree.dfy`): the native children (`Node`) and the rendered `li.cs-option`
  items (`Item`), plus `populateList` as a recursive method with a loop. The `selected` and `active`
  class markers are counted and updated at paths. A path is the sibling index at each level.
- `Geometry` (`geometry.dfy`): the viewport flip condition and the outside-click test, on integer rectangles.
- `Tracked` (`tracked.dfy`): `indexOf` and `splice(start, 1)` with JavaScript semantics, as used by `destroy(elem)`.
- `Widgets` (`widgets.dfy`): class `Widget` (one built dropdown) and class `CustomSelect` (the
  manager). `Widget` has fields `open`, `above`, `items`, `labelText`, `changeEvents`, and the
  native options' `selected` flags as an `array<bool>`. `CustomSelect` has the tracked `elements`,
  `bodyListenerBound`, and `pendingBinds`, the number of scheduled `setTimeout` registrations.
  The methods are the event handlers.
- `Scenarios` (`scenarios.dfy`): clients that build widgets and click through concrete cases.
- `Wrappers` (`wrappers.dfy`): `Option` and `Result`.

Behaviour of the code as written, which the model keeps and proves:

- `optionClick` writes the native selection at `indexInParent(option)`. That is the clicked
  item's index among its siblings, not its position in the flattened option list. For a group
  `G: [D, E]` followed by `F`, clicking `F` selects native option 1 (`E`), not 2
  (`Scenarios.ClickOptionAfterGroup`). An index past the native options throws after every
  native flag was cleared (`Widgets.Widget.OptionClick`, `thrown`).
- The outside-click test compares `clientY < bottom || clientY > top`. When `top < bottom`, every
  point passes it, including points inside the widget, so every open tracked widget closes on
  any click that reaches the body while the listener is registered (`Geometry.EveryPointIsOutside`).
- A click on a container runs `toggleFocus` and then bubbles on to `document.body`
  (`Widgets.CustomSelect.ContainerClick`). Closing an open widget there unregisters the body
  listener before the click reaches the body (`Scenarios.ContainerClickTogglesOpen`). But after an
  option click the listener stays registered, so the next container click opens the widget and
  the same click's `tryToBlur` closes it again at once; the registration that click scheduled then
  runs with the widget closed (`Scenarios.ContainerClickAfterOptionClick`). A click on an option
  stops propagation, so `optionClick` is its only handler.
- Group headers pass the "enabled" guard of both option handlers. Clicking a group header marks
  it `selected` and writes the native flag at the header's own sibling index.
- `mousemove` bubbles and `optionHover` does not stop it. The handler of every enclosing group
  item therefore runs after the inner one and clears `active` across the whole list. Only the
  top-level item under the pointer stays active (`Widgets.Widget.MouseMove`).
- An `optionClick` does not unbind the body listener. The listener is unbound
  unconditionally by any `blurSelect` on an open widget, with no reference count.
- The placeholder descends one level, and only into an `<optgroup>`. An empty select, or an
  empty first optgroup, makes the build throw, even when options follow
  (`Settings.EmptyFirstGroupThrows`). A first child of any other tag gives its own text
  (`Settings.OtherFirstElementGivesItsText`). `populateList` treats every non-option child as a
  group, so `Node.GroupEl` carries an `optgroup` flag that only the placeholder code reads.
- `destroy(elem)` on an element that is not tracked removes the last tracked element
  (`Tracked.RemoveAbsent`). `destroy()` without an argument leaves the tracked list as it is.

## Model

| member | source | states |
|---|---|---|
| `Kebab.KebabCase` | index.js:38-40 | no character of the result is an uppercase ASCII letter |
| `Kebab.DashedIsSeparated` | index.js:39 | the left-to-right regex replace equals inserting a dash after every lowercase letter that is followed by an uppercase one |
| `Kebab.KebabCaseLength` | index.js:38-40 | the result's length is the input's length plus the number of adjacent lowercase-uppercase pairs |
| `Kebab.KebabCaseWithoutPairs` | index.js:38-40 | an input without such pairs is only lowercased |
| `Kebab.KebabCaseCustomId` | index.js:39 | `customID` is read from the attribute `custom-id` |
| `Kebab.KebabCaseOnChange` | index.js:39 | `onChange` is read from the attribute `on-change` |
| `Settings.ResolveSettings` | index.js:60-67 | every key keeps its constructor value unless the data attribute named by its kebab case is present and non-null, in which case it takes that value; no key is added or removed |
| `Settings.PlaceholderFor` | index.js:71-78 | a truthy placeholder is kept; otherwise the first child's text, or its first child's text when it is an optgroup; the build throws exactly when the select is empty or its first child is an empty optgroup |
| `Settings.PlaceholderIsFirstOptionText` | index.js:71-78 | when the first child is an option or an optgroup starting with an option, the derived placeholder is the first native option's text |
| `Settings.EmptyFirstGroupThrows` | index.js:72-77 | an empty first optgroup throws although a later option exists |
| `Settings.OtherFirstElementGivesItsText` | index.js:74-77 | a first child that is neither an option nor an optgroup is not descended into: its own (here empty) text is the placeholder, not the first option's |
| `Settings.LabelText` | index.js:106-107 | the label is the text of the first selected item in document order, or the placeholder's text when none is selected |
| `OptionTree.PopulateList` | index.js:141-175 | one item per child, in source order; options become leaves with the same text, value, `disabled` and `selected`; groups become group items whose children are rendered recursively; nothing is active |
| `OptionTree.MirrorsUnique` | index.js:141-175 | the rendering of a child is unique |
| `OptionTree.Flatten` | index.js:261 | `find(realSelect, 'option')` yields option elements only, in document order |
| `OptionTree.MirrorsFlatten` | index.js:141-175 | the rendered leaves in document order mirror the flattened native options one for one |
| `OptionTree.MirrorsSelectedCount` | index.js:153-154 | a fresh rendering carries as many `selected` markers as there are selected native options |
| `OptionTree.FirstSelectedPath` | index.js:257 | finds a selected item when one exists, and finds none exactly when no item is selected |
| `OptionTree.SelectedItemIsFirstInDocumentOrder` | index.js:106 | the item found is the first selected one in document order |
| `OptionTree.WithSelected` | index.js:258 | sets the marker of the item at the path, keeps the tree's structure and changes the marker count by exactly that item |
| `OptionTree.ClearFirstSelected` | index.js:257 | clears one marker when there is one, otherwise changes nothing; structure and paths are kept |
| `OptionTree.ClickMovesSelection` | index.js:257-258 | from at most one selected item, a click leaves exactly one, the clicked one |
| `OptionTree.Hover` | index.js:241-244 | the hovered item becomes active, it is the only active item of its sibling list (nested lists included), and only `active` markers change |
| `OptionTree.HoverKeepsRest` | index.js:241-244 | hovering keeps the structure and every path of the tree |
| `OptionTree.TopLevelHoverSingleActive` | index.js:238-244 | hovering a top-level item leaves exactly one active item in the whole tree |
| `OptionTree.TopLevelHoverForgetsActive` | index.js:242-243 | the result of a top-level hover does not depend on the previous `active` markers |
| `Geometry.OpensAboveOnlyInLowerHalf` | index.js:280 | only a container whose edges sum to more than the viewport height, that is one centred in the lower half, ever opens upward |
| `Geometry.TallerViewportNeverFlips` | index.js:280 | a widget that opens downward still does so in any taller viewport |
| `Geometry.EveryPointIsOutside` | index.js:228-231 | when top < bottom, every click point passes the outside test |
| `Geometry.OutsideAsWrittenExactly` | index.js:228-231 | the test fails exactly for points between `bottom` and `top` within the horizontal bounds |
| `Geometry.CentreCountsAsOutside` | index.js:228-231 | the centre of a box counts as outside it |
| `Tracked.IndexOf` | index.js:184 | -1 exactly when the element is absent; otherwise the index of its first occurrence |
| `Tracked.RemovePresent` | index.js:184 | destroying a tracked element removes its first occurrence and nothing else |
| `Tracked.RemoveAbsent` | index.js:184 | destroying an untracked element removes the last element, or nothing from an empty list |
| `Tracked.RemoveAbsentDropsLast` | index.js:184 | `[1, 2, 3]` without the untracked 7 becomes `[1, 2]` |
| `Tracked.SpliceKeepsDistinct` | index.js:184 | a one-element splice keeps a list free of repetitions and adds nothing |
| `Widgets.Widget.constructor` | index.js:80-115 | the widget mirrors the native children, copies the native flags and `disabled`, shows the label text, is closed, and has `above` set by the viewport check |
| `Widgets.Widget.CheckViewport` | index.js:276-284 | `above` is set exactly when bottom + list height + 10 exceeds the viewport height and top - list height exceeds 10; it changes nothing else |
| `Widgets.Widget.OptionHover` | index.js:236-245 | on an enabled item or a group header the item becomes the single active item of its list; on a disabled option nothing changes |
| `Widgets.Widget.MouseMove` | index.js:173 | after the bubbling handlers, only the top-level item under the pointer is active, unless it is a disabled option, in which case nothing changes |
| `Widgets.Widget.OptionClick` | index.js:247-274 | on an enabled item or group header: moves the marker, so that from at most one `selected` item exactly one remains, leaves exactly the native option at `indexInParent` selected, sets the label, fires one change event and closes; an index past the options throws; on a disabled option only `open` is removed |
| `Widgets.CustomSelect.constructor` | index.js:43-57 | the manager starts with its options, no tracked widget, no body listener and nothing scheduled |
| `Widgets.CustomSelect.ReplaceDOMElement` | index.js:59-116 | builds and tracks a widget with the resolved settings, the derived placeholder and the label, or tracks nothing when the placeholder cannot be derived |
| `Widgets.CustomSelect.TriggerSelect` | index.js:210-221 | a widget that is not disabled runs the viewport check, opens and schedules one registration; a disabled one is unchanged |
| `Widgets.CustomSelect.BlurSelect` | index.js:200-208 | an open widget closes and the body listener is unbound; a closed one changes nothing |
| `Widgets.CustomSelect.ToggleFocus` | index.js:122-127 | the three cases of a container click: open a closed enabled widget, leave a closed disabled one, close an open one |
| `Widgets.CustomSelect.Tick` | index.js:217-219 | a scheduled registration runs and binds the body listener |
| `Widgets.CustomSelect.TryToBlur` | index.js:223-234 | each tracked widget is tested on its own rectangle; it stays open only if it was open and the click fails the test; with top < bottom every widget closes; the listener stays bound only if no open widget was hit; every widget keeps its list, label, `above`, event count and validity |
| `Widgets.CustomSelect.BodyClick` | index.js:217-234 | a click reaching the body runs the outside test only while the listener is registered; otherwise nothing changes; widgets keep everything but `open` |
| `Widgets.CustomSelect.ContainerClick` | index.js:113-127 | `toggleFocus` on the clicked widget, then the body click with the listener as `toggleFocus` left it: it runs only when this click did not close the clicked widget and it was registered before; the clicked widget is tested with its new `open`; no other widget field changes |
| `Widgets.CustomSelect.Destroy` | index.js:184 | the tracked list becomes the spliced list; a tracked widget leaves it and the list stays free of repetitions |
| `Scenarios.ClickThirdOption` | index.js:247-274 | with A, B, C and B selected: label "B", then clicking C gives label "C", native flags [false, false, true], one change event, closed |
| `Scenarios.ClickOptionAfterGroup` | index.js:253-264 | with G: [D, E] and F, clicking F leaves native option 1 selected |
| `Scenarios.ContainerClickTogglesOpen` | index.js:122-127 | a container click opens the widget without touching the body (nothing registered yet); after the deferred registration a second container click closes it and unregisters the listener |
| `Scenarios.ContainerClickAfterOptionClick` | index.js:223-274 | after an option click the listener is still registered; the next container click leaves the widget closed and the listener unregistered, and the registration it scheduled then re-registers it with the widget closed |
| `Scenarios.ReopenAndClickAfterBlur` | index.js:223-274 | a click elsewhere closes the widget, a container click reopens it, and clicking B sets the label to "B", native flags [false, true] and one change event |

## Left out

- DOM construction, insertion and re-parenting (`createElement`, `insertBefore`, `append`, `remove`, `prop`): the rendered tree is the value `Widget.items`.
- Applying `customID` and `customClass` to the container is DOM work; the resolved values are kept in `Widget.settings`.
- Listener plumbing (`on`, `off`, `preventDefault`, `createEvent`, `dispatchEvent`): it becomes `bodyListenerBound` and `changeEvents`. Click propagation is composed by the methods: `OptionClick` is a whole option click (it stops propagation), `ContainerClick` is a container click followed by its arrival at the body, `BodyClick` is any other click. What external change listeners do is not modelled.
- `getFocus` and `blurFocus` only forward `event.currentTarget`; `TriggerSelect` and `BlurSelect` take the widget directly.
- Timing: `setTimeout` is the `pendingBinds` count and `Tick`; nothing about real time or event-loop order is modelled.
- `screenPosition`, `height` and `window.innerHeight` are browser floats; they are integer inputs (`Rect`, `Placement`), one rectangle per tracked widget in `TryToBlur`.
- `getElements`, `defaultify`, `deepClone`, `forEach`, `forIn` and `data` are foreign helpers. The merged options are a given map, `data` gives a `Value` per attribute name, and a missing attribute reads as undefined.
- The constructor (index.js:43-57) sets `this.elements` to every matched control before building any, then builds them with the foreign `forEach` (the iteration order is not shown; `populateList` passes a `// force order` flag that the constructor does not). A build that throws (no derivable placeholder) escapes `forEach` and the constructor: the controls not yet built are never built and no manager is returned. The model instead starts from an empty manager and calls `ReplaceDOMElement` once per control; each successful build appends its widget to `elements`, and a failing build returns null and tracks nothing, after which further calls may go on. That recovery is a modelling choice, not what the code does.
- `update()`: it splices `this.elements` inside a `forEach` over that same array, so what it does depends on the unseen `forEach`.
- `destroy()` without an argument, and the listener removal in `destroy(elem)`: they only remove listeners that were never added (`getFocus`, `blurFocus` on the document element), so no modelled state changes.
- The `loop`, `size` and `onChange` settings are declared but never read.
- `textContent`: item and option texts are given strings, including the text of a first child that is neither an option nor an optgroup. A group item's own `textContent` also includes the text of its nested list.
- The browser's selectedness rules for a single select (it keeps one option selected) are not modelled; the native `selected` flags are taken as read.
- Kebab.KebabCase: lowercases ASCII letters only; `toLowerCase` also lowercases other Unicode letters.
