/**
  What convertJSONtoHimalayaJSON (editor/operations.js:16-37) guarantees
  about the tree it builds: when it throws, the order of the attributes,
  the reserved entries left out at every depth, and the shape of the
  children.
*/
module HimalayaLaws {
  import opened JsBase
  import opened PageJson
  import opened Himalaya

  // ---------------------------------------------------------------------
  // Attributes
  // ---------------------------------------------------------------------

  /** An entry that `Object.values` rejects: a `null` that is not skipped first. */
  predicate NullAttribute(es: seq<(string, Json)>) {
    exists k :: 0 <= k < |es| && !Reserved(es[k].0) && es[k].1.Null?
  }

  /** The attributes throw exactly when some non-reserved entry is `null`. */
  lemma {:induction false} AttributesUpToThrows(es: seq<(string, Json)>, n: nat)
    requires n <= |es|
    ensures AttributesUpTo(es, n).Throws? <==> NullAttribute(es[..n])
  {
    if n > 0 {
      AttributesUpToThrows(es, n - 1);
      assert es[..n] == es[..n - 1] + [es[n - 1]];
      if NullAttribute(es[..n - 1]) {
        var k :| 0 <= k < n - 1 && !Reserved(es[..n - 1][k].0) && es[..n - 1][k].1.Null?;
        assert es[..n][k] == es[..n - 1][k];
      }
      if NullAttribute(es[..n]) && !NullAttribute(es[..n - 1]) {
        var k :| 0 <= k < n && !Reserved(es[..n][k].0) && es[..n][k].1.Null?;
        if k < n - 1 {
          assert false;
        }
      }
    }
  }

  lemma AttributesThrow(es: seq<(string, Json)>)
    ensures Attributes(es).Throws? <==> NullAttribute(es)
  {
    AttributesUpToThrows(es, |es|);
    assert es[..|es|] == es;
  }

  /** The attributes of the entries `a + b` are those of `a` followed by those of `b`. */
  lemma {:induction false} AttributesUpToAppend(a: seq<(string, Json)>, b: seq<(string, Json)>, m: nat)
    requires m <= |b|
    ensures AttributesUpTo(a + b, |a| + m) ==
      match (Attributes(a), AttributesUpTo(b, m))
      case (Ok(x), Ok(y)) => Ok(x + y)
      case _ => Throws
  {
    if m == 0 {
      assert AttributesUpTo(a + b, |a|) == AttributesUpTo(a, |a|) by {
        PrefixAgrees(a + b, a, |a|);
      }
      if Attributes(a).Ok? {
        assert Attributes(a).value + [] == Attributes(a).value;
      }
    } else {
      AttributesUpToAppend(a, b, m - 1);
      assert (a + b)[|a| + m - 1] == b[m - 1];
      if AttributesUpTo(b, m - 1).Ok? && Attributes(a).Ok? {
        var x, y := Attributes(a).value, AttributesUpTo(b, m - 1).value;
        match AttributeOf(b[m - 1].0, b[m - 1].1)
        case Throws =>
        case Ok(None) =>
        case Ok(Some(at)) => assert x + y + [at] == x + (y + [at]);
      }
    }
  }

  /** Two entry lists that agree on their first `n` entries agree on those entries' attributes. */
  lemma {:induction false} PrefixAgrees(es: seq<(string, Json)>, fs: seq<(string, Json)>, n: nat)
    requires n <= |es| && n <= |fs| && es[..n] == fs[..n]
    ensures AttributesUpTo(es, n) == AttributesUpTo(fs, n)
  {
    if n > 0 {
      assert es[..n - 1] == fs[..n - 1] by {
        assert es[..n - 1] == es[..n][..n - 1];
        assert fs[..n - 1] == fs[..n][..n - 1];
      }
      assert es[n - 1] == es[..n][n - 1] == fs[..n][n - 1] == fs[n - 1];
      PrefixAgrees(es, fs, n - 1);
    }
  }

  /** Lines 24-32 keep the entries in order: attributes distribute over concatenation. */
  lemma AttributesAppend(a: seq<(string, Json)>, b: seq<(string, Json)>)
    ensures Attributes(a + b) ==
      match (Attributes(a), Attributes(b))
      case (Ok(x), Ok(y)) => Ok(x + y)
      case _ => Throws
  {
    AttributesUpToAppend(a, b, |b|);
  }

  /** A single entry gives at most the one attribute it converts to. */
  lemma AttributesSingle(key: string, value: Json)
    ensures Attributes([(key, value)]) ==
      match AttributeOf(key, value)
      case Throws => Throws
      case Ok(None) => Ok([])
      case Ok(Some(at)) => Ok([at])
  {
    var es := [(key, value)];
    assert AttributesUpTo(es, 0) == Ok([]);
    match AttributeOf(key, value)
    case Throws =>
    case Ok(None) =>
    case Ok(Some(at)) => assert [] + [at] == [at];
  }

  /** No attribute is named `id`, `children`, `component` or `className`. */
  predicate CleanAttributes(attrs: seq<Attribute>) {
    forall k :: 0 <= k < |attrs| ==> !Reserved(attrs[k].key) && attrs[k].key != "className"
  }

  lemma {:induction false} AttributesUpToClean(es: seq<(string, Json)>, n: nat)
    requires n <= |es|
    ensures AttributesUpTo(es, n).Ok? ==> CleanAttributes(AttributesUpTo(es, n).value)
  {
    if n > 0 {
      AttributesUpToClean(es, n - 1);
    }
  }

  // ---------------------------------------------------------------------
  // The tree
  // ---------------------------------------------------------------------

  /** Every element of the tree, at every depth, has clean attributes. */
  predicate Clean(t: Node) {
    match t
    case Text(_) => true
    case Element(_, attrs, ch) =>
      CleanAttributes(attrs) && (ch.Nodes? ==> AllClean(ch.nodes))
  }

  predicate AllClean(ns: seq<Node>)
    decreases ns
  {
    forall k :: 0 <= k < |ns| ==> Clean(ns[k])
  }

  lemma {:induction false} ConvertedIsClean(config: Json)
    ensures ToHimalaya(config).Ok? ==> Clean(ToHimalaya(config).value)
    decreases config, 2
  {
    if ToHimalaya(config).Ok? {
      if Prop(config, "component") == Str("div") {
        MapChildrenClean(config);
      }
      AttributesUpToClean(Entries(config).value, |Entries(config).value|);
    }
  }

  lemma {:induction false} MapChildrenClean(config: Json)
    ensures MapChildren(config).Ok? && MapChildren(config).value.Nodes? ==>
              AllClean(MapChildren(config).value.nodes)
    decreases config, 1
  {
    if config.Obj? {
      match Find(config.entries, "children")
      case None =>
      case Some(i) =>
        var kids := config.entries[i].1;
        if kids.Arr? {
          MapNodesClean(kids.items);
        }
    }
  }

  lemma {:induction false} MapNodesClean(items: seq<Json>)
    ensures MapNodes(items).Ok? ==> AllClean(MapNodes(items).value)
    decreases items, 0
  {
    if items != [] {
      ConvertedIsClean(items[0]);
      MapNodesClean(items[1..]);
    }
  }

  /** `map` converts element by element: it succeeds iff every element does, and keeps their order. */
  lemma {:induction false} MapNodesPointwise(items: seq<Json>)
    ensures MapNodes(items).Ok? <==> forall k :: 0 <= k < |items| ==> ToHimalaya(items[k]).Ok?
    ensures MapNodes(items).Ok? ==>
              |MapNodes(items).value| == |items| &&
              forall k :: 0 <= k < |items| ==> MapNodes(items).value[k] == ToHimalaya(items[k]).value
  {
    if items != [] {
      MapNodesPointwise(items[1..]);
      assert forall k :: 1 <= k < |items| ==> items[k] == items[1..][k - 1];
    }
  }

  /** A `div` whose `children` is an array gets one converted node per element, in order. */
  lemma DivChildren(config: Json, items: seq<Json>)
    requires Prop(config, "component") == Str("div")
    requires Prop(config, "children") == Arr(items)
    requires ToHimalaya(config).Ok?
    ensures ToHimalaya(config).value.children.Nodes?
    ensures var ns := ToHimalaya(config).value.children.nodes;
      |ns| == |items| && forall k :: 0 <= k < |items| ==> ToHimalaya(items[k]) == Ok(ns[k])
  {
    MapNodesPointwise(items);
  }

  /** A `div` with no `children` (or `null`) gets none: `children?.map` is `undefined`. */
  lemma DivWithoutChildren(config: Json)
    requires Prop(config, "component") == Str("div")
    requires Nullish(Prop(config, "children"))
    requires ToHimalaya(config).Ok?
    ensures ToHimalaya(config).value.children == Absent
  {
  }

  /** Any other component gets one text node holding `children`, or `''` when that is falsy. */
  lemma TextChild(config: Json)
    requires Prop(config, "component") != Str("div")
    requires ToHimalaya(config).Ok?
    ensures ToHimalaya(config).value.children.Nodes?
    ensures var ns := ToHimalaya(config).value.children.nodes;
      |ns| == 1 && ns[0].Text? &&
      (Truthy(Prop(config, "children")) ==> ns[0].content == Prop(config, "children")) &&
      (!Truthy(Prop(config, "children")) ==> ns[0].content == Str(""))
  {
  }

  /** The node's `tagName` is the component's `component` entry (line 35). */
  lemma TagIsComponent(config: Json)
    requires ToHimalaya(config).Ok?
    ensures ToHimalaya(config).value.Element?
    ensures ToHimalaya(config).value.tagName == Prop(config, "component")
  {
  }

  /** The `children` of a `div` throw when they are not an array, or when some element throws. */
  predicate ChildrenThrow(config: Json) {
    Prop(config, "component") == Str("div") &&
    !Nullish(Prop(config, "children")) &&
    (!Prop(config, "children").Arr? ||
     exists k :: 0 <= k < |Prop(config, "children").items| &&
                 ToHimalaya(Prop(config, "children").items[k]).Throws?)
  }

  lemma MapChildrenThrows(config: Json)
    requires !Nullish(config)
    ensures MapChildren(config).Throws? <==>
      !Nullish(Prop(config, "children")) &&
      (!Prop(config, "children").Arr? ||
       exists k :: 0 <= k < |Prop(config, "children").items| &&
                   ToHimalaya(Prop(config, "children").items[k]).Throws?)
  {
    var kids := ChildrenOf(config);
    if kids.Arr? {
      MapNodesPointwise(kids.items);
    }
  }

  /**
    The conversion throws exactly when the component is `undefined` or
    `null`, when a `div`'s children throw, or when an entry to convert
    is `null`.
  */
  lemma ConvertThrows(config: Json)
    ensures ToHimalaya(config).Throws? <==>
      Nullish(config) || ChildrenThrow(config) || NullAttribute(Entries(config).value)
  {
    if !Nullish(config) {
      MapChildrenThrows(config);
      AttributesThrow(Entries(config).value);
    }
  }
}
