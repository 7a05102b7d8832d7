/**
  convertArgumentToPath (utilities/operations.js:14-21): turning a
  `{from, find}` descriptor into the list of segments it names.

  The function destructures its argument, so a primitive argument (a
  string, a number, `true`) yields no segments, while `undefined` and
  `null` cannot be destructured and throw. A slot whose `typeof` is
  'object' is descended into first (`from`, then `find`); then a string
  `from` and a string `find` are pushed. The `data` parameter is never
  read, so it does not appear here.

  A descriptor normally is a literal of the rule declaration (`Desc`). An
  argument can also be a context object (`Obj`): a prefilter slot that an
  earlier pass overwrote with what it read. Its slots are then read from
  the heap, and a cycle of such objects recurses until the JavaScript
  stack overflows; the model spends one unit of `fuel` per object entered
  and reports exhaustion as a throw.
*/
module ArgumentPaths {
  import opened JsBase
  import opened Values
  import opened JsHeap

  /** convertArgumentToPath(data, arg, acc). */
  function ArgumentPath(h: Heap, arg: Value, acc: seq<string>, fuel: nat): Eval<seq<string>>
    decreases fuel, arg, 1
  {
    match arg
    case Undefined => Throws
    case Null => Throws
    case Desc(from, find) => Destructured(h, from, find, acc, fuel)
    case Obj(a) =>
      if fuel == 0 then Throws
      else Destructured(h, Field(h, a, "from"), Field(h, a, "find"), acc, fuel - 1)
    case _ => Ok(acc)
  }

  /** The body of convertArgumentToPath once `{from, find}` has been destructured. */
  function Destructured(h: Heap, from: Value, find: Value, acc: seq<string>, fuel: nat): Eval<seq<string>>
    decreases fuel, Desc(from, find), 0
  {
    match Descend(h, from, acc, fuel)
    case Throws => Throws
    case Ok(p1) =>
      match Descend(h, find, p1, fuel)
      case Throws => Throws
      case Ok(p2) => Ok(p2 + Pushed(from, find))
  }

  /** `if (typeof v === 'object') convertArgumentToPath(data, v, acc)`: only an object-typed slot is entered. */
  function Descend(h: Heap, v: Value, acc: seq<string>, fuel: nat): Eval<seq<string>>
    decreases fuel, v, 2
  {
    if IsObjectTyped(v) then ArgumentPath(h, v, acc, fuel) else Ok(acc)
  }

  /** The segments the two string slots push, `from` first. */
  function Pushed(from: Value, find: Value): seq<string> {
    (if from.Str? then [from.s] else []) + (if find.Str? then [find.s] else [])
  }

  /** A top-level call `convertArgumentToPath(data, arg)`: the accumulator starts empty. */
  function PathOf(h: Heap, arg: Value): (r: Eval<seq<string>>)
    ensures arg.Undefined? || arg.Null? ==> r == Throws
    ensures arg.Str? || arg.Num? || arg.Bool? ==> r == Ok([])
  {
    ArgumentPath(h, arg, [], |h.Keys|)
  }

  /** A descriptor built only from literals: strings, nested descriptors and ignored primitives. */
  predicate Literal(v: Value) {
    match v
    case Desc(from, find) => Literal(from) && Literal(find)
    case Obj(_) => false
    case Null => false
    case _ => true
  }

  /** The segments of a literal descriptor; a string slot is one segment. */
  function Segments(v: Value): seq<string>
    requires Literal(v)
  {
    match v
    case Desc(from, find) =>
      Segments(from) + Segments(find) + Pushed(from, find)
    case _ => []
  }

  /**
    Path building ignores the context: for a literal descriptor the result
    never throws, is the accumulator followed by the descriptor's own
    segments, and is the same for every heap and every fuel.
  */
  lemma LiteralPathIgnoresContext(h: Heap, arg: Value, acc: seq<string>, fuel: nat)
    requires arg.Desc? && Literal(arg)
    ensures ArgumentPath(h, arg, acc, fuel) == Ok(acc + Segments(arg))
  {
    DescendLiteral(h, arg, acc, fuel);
  }

  /** Entering a literal slot appends its segments (none for a primitive slot). */
  lemma {:induction false} DescendLiteral(h: Heap, v: Value, acc: seq<string>, fuel: nat)
    requires Literal(v)
    ensures Descend(h, v, acc, fuel) == Ok(acc + Segments(v))
    decreases v
  {
    if v.Desc? {
      var from, find := v.from, v.find;
      DescendLiteral(h, from, acc, fuel);
      DescendLiteral(h, find, acc + Segments(from), fuel);
      assert Destructured(h, from, find, acc, fuel) == Ok(acc + Segments(from) + Segments(find) + Pushed(from, find));
      assert Descend(h, v, acc, fuel) == Destructured(h, from, find, acc, fuel);
      assert acc + Segments(from) + Segments(find) + Pushed(from, find) == acc + Segments(v);
    } else {
      assert acc + [] == acc;
    }
  }

  /** The in-order reading of a descriptor: `from`'s segments, then `find`'s. */
  function InOrder(v: Value): seq<string> {
    match v
    case Str(s) => [s]
    case Desc(from, find) => InOrder(from) + InOrder(find)
    case _ => []
  }

  /** No descriptor in `v` pairs a string `from` with a descriptor `find`. */
  predicate LeftNested(v: Value) {
    match v
    case Desc(from, find) => !(from.Str? && find.Desc?) && LeftNested(from) && LeftNested(find)
    case _ => true
  }

  /**
    For descriptors nested on the `from` side (every rule in the
    repository is one), the segments come out in reading order.
  */
  lemma {:induction false} LeftNestedReadsInOrder(v: Value)
    requires Literal(v) && LeftNested(v)
    ensures v.Desc? ==> Segments(v) == InOrder(v)
    decreases v
  {
    if v.Desc? {
      LeftNestedReadsInOrder(v.from);
      LeftNestedReadsInOrder(v.find);
    }
  }

  /**
    Nesting on the `find` side puts the nested segments first:
    `{from: 'req', find: {from: 'params', find: 'uid'}}` gives
    ['params', 'uid', 'req'], not the reading order.
  */
  lemma RightNestedIsReordered(h: Heap)
    ensures var d := Desc(Str("req"), Desc(Str("params"), Str("uid")));
            PathOf(h, d) == Ok(["params", "uid", "req"]) && InOrder(d) == ["req", "params", "uid"]
  {
    var d := Desc(Str("req"), Desc(Str("params"), Str("uid")));
    LiteralPathIgnoresContext(h, d, [], |h.Keys|);
    assert Segments(Desc(Str("params"), Str("uid"))) == ["params", "uid"];
    assert Segments(d) == ["params", "uid"] + ["req"];
    assert [] + Segments(d) == ["params", "uid", "req"];
    assert InOrder(Desc(Str("params"), Str("uid"))) == ["params", "uid"];
    assert InOrder(d) == ["req"] + ["params", "uid"];
  }

  /** The descriptor of `req.params.uid` as the routes declare it. */
  lemma ReqParamsUid(h: Heap)
    ensures PathOf(h, Desc(Desc(Str("req"), Str("params")), Str("uid"))) == Ok(["req", "params", "uid"])
  {
    LiteralPathIgnoresContext(h, Desc(Desc(Str("req"), Str("params")), Str("uid")), [], |h.Keys|);
    assert Pushed(Str("req"), Str("params")) == ["req", "params"];
    assert Segments(Desc(Str("req"), Str("params"))) == [] + [] + ["req", "params"];
    assert Pushed(Desc(Str("req"), Str("params")), Str("uid")) == ["uid"];
    assert Segments(Desc(Desc(Str("req"), Str("params")), Str("uid"))) == ["req", "params"] + [] + ["uid"];
    assert [] + (["req", "params"] + [] + ["uid"]) == ["req", "params", "uid"];
  }
}
