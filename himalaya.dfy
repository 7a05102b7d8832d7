/**
  convertJSONtoHimalayaJSON (editor/operations.js:16-37): a page
  component becomes a node of the tree himalaya's `stringify` prints.
  `tagName` is the component; only a `div` converts its `children` list
  node by node, every other component gets one text child; the other
  entries of the component become its attributes.
*/
module Himalaya {
  import opened JsBase
  import opened PageJson
  import opened Css

  datatype Attribute = Attribute(key: string, value: Json)

  /** A node's `children`: `undefined` (from `children?.map`) or a list. */
  datatype Children = Absent | Nodes(nodes: seq<Node>)

  /** `{ tagName, attributes, children }` and `{ type: 'text', content }`. */
  datatype Node =
    | Element(tagName: Json, attributes: seq<Attribute>, children: Children)
    | Text(content: Json)

  // ---------------------------------------------------------------------
  // Attributes (lines 23-32)
  // ---------------------------------------------------------------------

  /** The entries that never become attributes (line 25). */
  predicate Reserved(key: string) {
    key == "id" || key == "children" || key == "component"
  }

  /** `Object.values(v).length < 1` for an array or object (line 27). */
  predicate NoValues(v: Json)
    requires v.Arr? || v.Obj?
  {
    if v.Arr? then |v.items| < 1 else |v.entries| < 1
  }

  /**
    What one entry adds to `attributes` (lines 25-31): nothing for a
    reserved key, an empty array or an object without values; `null`
    throws in `Object.values`; `className` is renamed `class` and a
    `style` object is converted to its CSS text.
  */
  function AttributeOf(key: string, value: Json): (r: Eval<Option<Attribute>>)
    ensures r.Throws? <==> !Reserved(key) && value.Null?
    ensures r.Ok? && r.value.Some? ==>
              !Reserved(r.value.value.key) && r.value.value.key != "className" &&
              (r.value.value.key == "style" ==> r.value.value.value.Str?)
    ensures Reserved(key) ==> r == Ok(None)
    ensures !Reserved(key) && (value.Arr? || value.Obj?) && NoValues(value) ==> r == Ok(None)
    ensures key == "className" && !value.Null? && !((value.Arr? || value.Obj?) && NoValues(value)) ==>
              r == Ok(Some(Attribute("class", value)))
    ensures key == "style" && !value.Null? && !((value.Arr? || value.Obj?) && NoValues(value)) ==>
              CssOf(value).Ok? && r == Ok(Some(Attribute("style", Str(CssOf(value).value))))
    ensures !Reserved(key) && key != "className" && key != "style" &&
            !value.Null? && !((value.Arr? || value.Obj?) && NoValues(value)) ==>
              r == Ok(Some(Attribute(key, value)))
  {
    if Reserved(key) then Ok(None)
    else if value.Arr? && |value.items| < 1 then Ok(None)
    else if value.Null? then Throws
    else if (value.Arr? || value.Obj?) && NoValues(value) then Ok(None)
    else
      var name := if key == "className" then "class" else key;
      if name == "style" then
        match CssOf(value)
        case Throws => Throws
        case Ok(css) => Ok(Some(Attribute(name, Str(css))))
      else Ok(Some(Attribute(name, value)))
  }

  /** The attributes of the first `n` entries, in entry order. */
  function AttributesUpTo(es: seq<(string, Json)>, n: nat): Eval<seq<Attribute>>
    requires n <= |es|
  {
    if n == 0 then Ok([])
    else match AttributesUpTo(es, n - 1)
      case Throws => Throws
      case Ok(attrs) =>
        match AttributeOf(es[n - 1].0, es[n - 1].1)
        case Throws => Throws
        case Ok(None) => Ok(attrs)
        case Ok(Some(a)) => Ok(attrs + [a])
  }

  function Attributes(es: seq<(string, Json)>): Eval<seq<Attribute>> {
    AttributesUpTo(es, |es|)
  }

  /** An entry that throws ends the conversion: no later entry undoes it. */
  lemma {:induction false} ThrowPersists(es: seq<(string, Json)>, n: nat, m: nat)
    requires n <= m <= |es| && AttributesUpTo(es, n).Throws?
    ensures AttributesUpTo(es, m).Throws?
    decreases m
  {
    if m > n {
      ThrowPersists(es, n, m - 1);
    }
  }

  /** Lines 23-32: the loop pushing one attribute per kept entry. */
  method BuildAttributes(es: seq<(string, Json)>) returns (r: Eval<seq<Attribute>>)
    ensures r == Attributes(es)
  {
    var attributes: seq<Attribute> := [];
    for i := 0 to |es|
      invariant AttributesUpTo(es, i) == Ok(attributes)
    {
      var (key, value) := es[i];
      if key == "id" || key == "children" || key == "component" {
        continue;
      }
      if value.Arr? && |value.items| < 1 {
        continue;
      }
      if value.Null? {
        ThrowPersists(es, i + 1, |es|);
        return Throws;
      }
      if (value.Arr? || value.Obj?) && NoValues(value) {
        continue;
      }
      if key == "className" {
        key := "class";
      }
      if key == "style" {
        // `null` was turned away above, so the conversion cannot throw
        var css := ConvertJsonToCss(value);
        value := Str(css.value);
      }
      attributes := attributes + [Attribute(key, value)];
    }
    return Ok(attributes);
  }

  // ---------------------------------------------------------------------
  // The tree (lines 16-22, 35)
  // ---------------------------------------------------------------------

  /** `config.children`, with the entry it comes from kept visible for termination. */
  function ChildrenOf(config: Json): (kids: Json)
    ensures kids == Prop(config, "children")
  {
    if config.Obj? then
      match Find(config.entries, "children")
      case None => Undef
      case Some(i) => config.entries[i].1
    else Undef
  }

  /**
    The conversion of one component: `config.children` on `undefined` or
    `null` throws, as does a `children` of a `div` that is neither nullish
    nor an array (it has no `map`).
  */
  function ToHimalaya(config: Json): Eval<Node>
    decreases config, 2
  {
    if Nullish(config) then Throws
    else
      var component := Prop(config, "component");
      var children :=
        if component == Str("div") then MapChildren(config)
        else
          var kids := ChildrenOf(config);
          Ok(Nodes([Text(if Truthy(kids) then kids else Str(""))]));
      match children
      case Throws => Throws
      case Ok(ch) =>
        match Attributes(Entries(config).value)
        case Throws => Throws
        case Ok(attrs) => Ok(Element(component, attrs, ch))
  }

  /** `config.children?.map(convertJSONtoHimalayaJSON)` (line 20). */
  function MapChildren(config: Json): Eval<Children>
    decreases config, 1
  {
    if config.Obj? then
      match Find(config.entries, "children")
      case None => Ok(Absent)
      case Some(i) =>
        var kids := config.entries[i].1;
        if Nullish(kids) then Ok(Absent)
        else if kids.Arr? then
          match MapNodes(kids.items)
          case Throws => Throws
          case Ok(nodes) => Ok(Nodes(nodes))
        else Throws
    else Ok(Absent)
  }

  /** Each element converted in order; the first that throws makes the map throw. */
  function MapNodes(items: seq<Json>): Eval<seq<Node>>
    decreases items, 0
  {
    if items == [] then Ok([])
    else match ToHimalaya(items[0])
      case Throws => Throws
      case Ok(n) =>
        match MapNodes(items[1..])
        case Throws => Throws
        case Ok(rest) => Ok([n] + rest)
  }

  /**
    convertJSONtoHimalayaJSON(config): the children through the
    conversion of the tree, the attributes through the push loop.
  */
  method ConvertJsonToHimalaya(config: Json) returns (r: Eval<Node>)
    ensures r == ToHimalaya(config)
  {
    if Nullish(config) {
      return Throws;
    }
    var component := Prop(config, "component");
    var children: Eval<Children>;
    if component == Str("div") {
      children := MapChildren(config);
    } else {
      var kids := ChildrenOf(config);
      children := Ok(Nodes([Text(if Truthy(kids) then kids else Str(""))]));
    }
    if children.Throws? {
      return Throws;
    }
    var attributes := BuildAttributes(Entries(config).value);
    if attributes.Throws? {
      return Throws;
    }
    return Ok(Element(component, attributes.value, children.value));
  }
}
