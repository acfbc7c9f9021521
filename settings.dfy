/**
 * Per-element settings and the texts computed at build time in
 * `replaceDOMelement` (index.js:59-116): data-attribute overrides, the derived
 * placeholder and the label.
 */
module Settings {
  import opened Wrappers
  import opened Kebab
  import opened OptionTree

  /** A settings value as JavaScript sees it. */
  datatype Value = Str(s: string) | Flag(b: bool) | Num(n: int) | Null

  /** JavaScript truthiness, as in `if (!scopeSettings.placeholder)`. */
  predicate Truthy(v: Value)
  {
    match v
    case Str(s) => s != ""
    case Flag(b) => b
    case Num(n) => n != 0
    case Null => false
  }

  /** Reading a key of a settings object: a missing key is `undefined`, falsy like null. */
  function Lookup(m: map<string, Value>, k: string): Value
  {
    if k in m then m[k] else Null
  }

  /** `data(element, name) != null`: the attribute exists and does not read as null. */
  predicate Present(data: map<string, Value>, name: string)
  {
    name in data && data[name] != Null
  }

  /** The per-key rule: the attribute named `kebabCase(key)` wins over the constructor value when present. */
  function Overridden(options: map<string, Value>, data: map<string, Value>, k: string): Value
    requires k in options
  {
    if Present(data, KebabCase(k)) then data[KebabCase(k)] else options[k]
  }

  /**
   * The `forIn` loop over `this.options` on a deep copy: each key takes its
   * data-attribute value when that is non-null; no key is added or removed.
   */
  method ResolveSettings(options: map<string, Value>, data: map<string, Value>)
    returns (scope: map<string, Value>)
    ensures scope.Keys == options.Keys
    ensures forall k :: k in options && Present(data, KebabCase(k)) ==> scope[k] == data[KebabCase(k)]
    ensures forall k :: k in options && !Present(data, KebabCase(k)) ==> scope[k] == options[k]
  {
    scope := options;
    var todo := options.Keys;
    while todo != {}
      invariant todo <= options.Keys
      invariant scope.Keys == options.Keys
      invariant forall k :: k in options && k in todo ==> scope[k] == options[k]
      invariant forall k :: k in options && k !in todo ==> scope[k] == Overridden(options, data, k)
      decreases todo
    {
      var key :| key in todo;
      var name := KebabCase(key);
      if Present(data, name) {
        scope := scope[key := data[name]];
      }
      todo := todo - {key};
    }
  }

  /**
   * The placeholder (index.js:71-78): a truthy setting is kept; otherwise the
   * text of the first child, or of the first child of a first `<optgroup>`;
   * any other first element gives its own text. Reading `options[0]` of an
   * empty control, or `children[0]` of an empty first optgroup, throws; that
   * is `Err`.
   */
  function PlaceholderFor(current: Value, children: seq<Node>): (r: Result<Value>)
    ensures Truthy(current) ==> r == Ok(current)
    ensures r.Err? <==> !Truthy(current) &&
                        (|children| == 0 || (children[0].GroupEl? && children[0].optgroup && |children[0].children| == 0))
    ensures r.Ok? && !Truthy(current) ==> r.value.Str?
  {
    if Truthy(current) then Ok(current)
    else if |children| == 0 then Err("options[0] is undefined")
    else
      match children[0]
      case OptionEl(t, _, _, _) => Ok(Str(t))
      case GroupEl(t, cs, optgroup) =>
        if !optgroup then Ok(Str(t))
        else if |cs| == 0 then Err("first.children[0] is undefined")
        else Ok(Str(cs[0].text))
  }

  /**
   * When the first child is an option, or an optgroup whose first child is an
   * option, the derived placeholder is the text of the first native option.
   */
  lemma PlaceholderIsFirstOptionText(current: Value, children: seq<Node>)
    requires !Truthy(current) && |children| > 0
    requires children[0].OptionEl? ||
             (children[0].GroupEl? && children[0].optgroup && |children[0].children| > 0 && children[0].children[0].OptionEl?)
    ensures |Flatten(children)| > 0
    ensures PlaceholderFor(current, children) == Ok(Str(Flatten(children)[0].text))
  {
    if children[0].GroupEl? {
      var cs := children[0].children;
      assert Flatten(cs) == [cs[0]] + Flatten(cs[1..]);
    }
  }

  /** One level only: an empty first optgroup throws even when options follow it. */
  lemma EmptyFirstGroupThrows()
    ensures var children := [GroupEl("G", [], true), OptionEl("A", "a", false, false)];
            |Flatten(children)| == 1 && PlaceholderFor(Str(""), children).Err?
  {
    var children := [GroupEl("G", [], true), OptionEl("A", "a", false, false)];
    assert Flatten(children[1..]) == [children[1]] + Flatten(children[2..]);
  }

  /**
   * A first child that is neither an option nor an optgroup (an `<hr>`, say)
   * is not descended into: the placeholder is its own text, here empty, and
   * the build goes on.
   */
  lemma OtherFirstElementGivesItsText()
    ensures var children := [GroupEl("", [], false), OptionEl("A", "a", false, false)];
            PlaceholderFor(Str(""), children) == Ok(Str("")) &&
            Flatten(children)[0].text == "A"
  {
    var children := [GroupEl("", [], false), OptionEl("A", "a", false, false)];
    assert Flatten(children[1..]) == [children[1]] + Flatten(children[2..]);
  }

  function Digits(n: nat): string
    decreases n
  {
    var d := ['0' + (n % 10) as char];
    if n < 10 then d else Digits(n / 10) + d
  }

  /** The text that assigning the value to `textContent` produces. */
  function TextOf(v: Value): string
  {
    match v
    case Str(s) => s
    case Flag(b) => if b then "true" else "false"
    case Num(n) => if n < 0 then "-" + Digits(-n) else Digits(n)
    case Null => ""
  }

  /**
   * The label (index.js:106-107): the text of the first rendered item marked
   * selected in document order, or the placeholder when none is marked.
   */
  function LabelText(items: seq<Item>, placeholder: Value): (r: string)
    ensures FirstMarked(Preorder(items)).Some? ==> r == FirstMarked(Preorder(items)).value.text
    ensures FirstMarked(Preorder(items)).None? ==> r == TextOf(placeholder)
  {
    SelectedItemIsFirstInDocumentOrder(items);
    match FirstSelectedPath(items)
    case Some(p) => At(items, p).text
    case None => TextOf(placeholder)
  }
}
