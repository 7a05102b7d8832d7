/**
  The objects an evaluation pass can reach, as a JavaScript heap: every
  object has an address and a table of properties. Reading a property an
  object does not have gives `undefined`.

  `ReadPath` and `WritePath` are the specifications of the path walkers in
  utilities/operations.js: both step through every segment but the last,
  then read or assign the last one. Stepping from `undefined` or `null`,
  or assigning a property of a primitive (ES modules run in strict mode),
  throws a TypeError.
*/
module JsHeap {
  import opened JsBase
  import opened Values

  type Heap = map<nat, map<string, Value>>

  /** The property `k` of the object at `a`. */
  function Field(h: Heap, a: nat, k: string): Value {
    if a in h && k in h[a] then h[a][k] else Undefined
  }

  /** The heap after `obj[k] = v` on the object at `a`. */
  function Update(h: Heap, a: nat, k: string, v: Value): (h': Heap)
    ensures Field(h', a, k) == v
    ensures forall b, j :: (b != a || j != k) ==> Field(h', b, j) == Field(h, b, j)
  {
    h[a := (if a in h then h[a] else map[])[k := v]]
  }

  /** `target[k]`. A descriptor literal exposes its two slots. */
  function Get(h: Heap, target: Value, k: string): Eval<Value> {
    match target
    case Undefined => Throws
    case Null => Throws
    case Obj(a) => Ok(Field(h, a, k))
    case Desc(from, find) =>
      Ok(if k == "from" then from else if k == "find" then find else Undefined)
    case _ => Ok(Undefined)
  }

  /** `target[k] = v`. Only a heap object accepts the assignment. */
  function Put(h: Heap, target: Value, k: string, v: Value): (r: Eval<Heap>)
    ensures r.Ok? <==> target.Obj?
  {
    if target.Obj? then Ok(Update(h, target.addr, k, v)) else Throws
  }

  /** Reading the segments one after another, starting from `cur`. */
  function Walk(h: Heap, cur: Value, segs: seq<string>): Eval<Value>
    decreases |segs|
  {
    if segs == [] then Ok(cur)
    else
      match Walk(h, cur, segs[..|segs| - 1])
      case Throws => Throws
      case Ok(c) => Get(h, c, segs[|segs| - 1])
  }

  /** The segments the cursor loop steps through: all but the last. */
  function Front(path: seq<string>): seq<string> {
    if path == [] then [] else path[..|path| - 1]
  }

  /** `path[path.length - 1]`; for an empty path this is `undefined`, used as the key "undefined". */
  function LastKey(path: seq<string>): string {
    if path == [] then "undefined" else path[|path| - 1]
  }

  /** convertPathToString(data, path), with `data` the object at `root`. */
  function ReadPath(h: Heap, root: nat, path: seq<string>): Eval<Value> {
    match Walk(h, Obj(root), Front(path))
    case Throws => Throws
    case Ok(c) => Get(h, c, LastKey(path))
  }

  /** The heap after setObjectFromPath(data, path, v), with `data` the object at `root`. */
  function WritePath(h: Heap, root: nat, path: seq<string>, v: Value): (r: Eval<Heap>)
    ensures r.Ok? <==> Walk(h, Obj(root), Front(path)).Ok? && Walk(h, Obj(root), Front(path)).value.Obj?
  {
    match Walk(h, Obj(root), Front(path))
    case Throws => Throws
    case Ok(c) => Put(h, c, LastKey(path), v)
  }

  /** Walking `segs` from `cur` reads property `k` of the object at `a` on the way. */
  predicate Touches(h: Heap, cur: Value, segs: seq<string>, a: nat, k: string)
    decreases |segs|
  {
    segs != [] &&
    (Touches(h, cur, segs[..|segs| - 1], a, k) ||
     (Walk(h, cur, segs[..|segs| - 1]) == Ok(Obj(a)) && segs[|segs| - 1] == k))
  }

  /** The walk to the parent of `path` does not pass through the property the write replaces. */
  predicate RouteIntact(h: Heap, root: nat, path: seq<string>) {
    match Walk(h, Obj(root), Front(path))
    case Ok(Obj(a)) => !Touches(h, Obj(root), Front(path), a, LastKey(path))
    case _ => true
  }

  /** A walk that never reads property `k` of `a` is blind to an assignment of it. */
  lemma {:induction false} WalkFrame(h: Heap, cur: Value, segs: seq<string>, a: nat, k: string, v: Value)
    requires !Touches(h, cur, segs, a, k)
    ensures Walk(Update(h, a, k, v), cur, segs) == Walk(h, cur, segs)
    decreases |segs|
  {
    if segs != [] {
      WalkFrame(h, cur, segs[..|segs| - 1], a, k, v);
    }
  }

  /** Once a walk has thrown, walking further segments throws too. */
  lemma {:induction false} WalkStaysThrown(h: Heap, cur: Value, segs: seq<string>, i: nat)
    requires i <= |segs| && Walk(h, cur, segs[..i]) == Throws
    ensures Walk(h, cur, segs) == Throws
    decreases |segs| - i
  {
    if i < |segs| {
      assert segs[..i + 1][..i] == segs[..i];
      WalkStaysThrown(h, cur, segs, i + 1);
    } else {
      assert segs[..i] == segs;
    }
  }

  /**
    A non-empty path reads like a walk over all of its segments, so the
    loop reads the first segments and the final lookup reads the last one.
  */
  lemma ReadPathIsWalk(h: Heap, root: nat, path: seq<string>)
    requires path != []
    ensures ReadPath(h, root, path) == Walk(h, Obj(root), path)
  {
  }

  /**
    A write changes one property of one object: the one the walk to the
    parent reaches, under the last segment of the path.
  */
  lemma WriteChangesOneProperty(h: Heap, root: nat, path: seq<string>, v: Value)
    requires WritePath(h, root, path, v).Ok?
    ensures Walk(h, Obj(root), Front(path)).Ok? && Walk(h, Obj(root), Front(path)).value.Obj?
    ensures var a := Walk(h, Obj(root), Front(path)).value.addr;
            var h' := WritePath(h, root, path, v).value;
            Field(h', a, LastKey(path)) == v &&
            forall b, j :: (b != a || j != LastKey(path)) ==> Field(h', b, j) == Field(h, b, j)
  {
  }

  /** A walk whose segments never name `k` cannot read property `k` of any object. */
  lemma {:induction false} KeyNotOnRoute(h: Heap, cur: Value, segs: seq<string>, a: nat, k: string)
    requires k !in segs
    ensures !Touches(h, cur, segs, a, k)
    decreases |segs|
  {
    if segs != [] {
      assert k !in segs[..|segs| - 1] by {
        forall x | x in segs[..|segs| - 1] ensures x in segs { }
      }
      KeyNotOnRoute(h, cur, segs[..|segs| - 1], a, k);
    }
  }

  /**
    A write leaves every other location as it was: reading a non-empty
    path none of whose segments is the written key gives what it gave before.
  */
  lemma WriteKeepsOtherReads(h: Heap, root: nat, path: seq<string>, v: Value, q: seq<string>)
    requires WritePath(h, root, path, v).Ok?
    requires q != [] && LastKey(path) !in q
    ensures ReadPath(WritePath(h, root, path, v).value, root, q) == ReadPath(h, root, q)
  {
    var a := Walk(h, Obj(root), Front(path)).value.addr;
    KeyNotOnRoute(h, Obj(root), q, a, LastKey(path));
    WalkFrame(h, Obj(root), q, a, LastKey(path), v);
    ReadPathIsWalk(h, root, q);
    ReadPathIsWalk(WritePath(h, root, path, v).value, root, q);
  }

  /**
    Write/read round trip: reading a path right after writing `v` at it
    gives `v`, unless the walk to the parent ran through the very property
    being replaced (a cyclic context; see RoundTripFailsOnCycle).
  */
  lemma WriteThenRead(h: Heap, root: nat, path: seq<string>, v: Value)
    requires WritePath(h, root, path, v).Ok?
    requires RouteIntact(h, root, path)
    ensures ReadPath(WritePath(h, root, path, v).value, root, path) == Ok(v)
  {
    var a := Walk(h, Obj(root), Front(path)).value.addr;
    WalkFrame(h, Obj(root), Front(path), a, LastKey(path), v);
  }

  /** A second write to the same path replaces the first one and nothing else. */
  lemma WriteTwice(h: Heap, root: nat, path: seq<string>, v: Value, w: Value)
    requires WritePath(h, root, path, v).Ok?
    requires RouteIntact(h, root, path)
    ensures WritePath(WritePath(h, root, path, v).value, root, path, w) == WritePath(h, root, path, w)
  {
    var a := Walk(h, Obj(root), Front(path)).value.addr;
    WalkFrame(h, Obj(root), Front(path), a, LastKey(path), v);
    var k := LastKey(path);
    var fields := if a in h then h[a] else map[];
    var h1 := Update(h, a, k, v);
    assert WritePath(h, root, path, v).value == h1;
    assert Walk(h1, Obj(root), Front(path)) == Ok(Obj(a));
    assert fields[k := v][k := w] == fields[k := w];
    assert Update(h1, a, k, w) == Update(h, a, k, w);
  }

  /**
    The round trip needs RouteIntact: with `root.a` an object whose own
    property `k` points back to itself, writing at [a, k, k] replaces that
    self-reference, and the read of the same path then ends one step later.
  */
  lemma RoundTripFailsOnCycle()
    ensures var h: Heap := map[0 := map["a" := Obj(1)], 1 := map["k" := Obj(1)]];
            WritePath(h, 0, ["a", "k", "k"], Str("x")).Ok? &&
            ReadPath(WritePath(h, 0, ["a", "k", "k"], Str("x")).value, 0, ["a", "k", "k"]) == Ok(Undefined)
  {
    var h: Heap := map[0 := map["a" := Obj(1)], 1 := map["k" := Obj(1)]];
    var p := ["a", "k", "k"];
    assert p[..2] == ["a", "k"] && ["a", "k"][..1] == ["a"] && ["a"][..0] == [];
    assert Walk(h, Obj(0), ["a"]) == Ok(Obj(1));
    assert Walk(h, Obj(0), ["a", "k"]) == Ok(Obj(1));
    var h' := Update(h, 1, "k", Str("x"));
    assert Walk(h', Obj(0), ["a"]) == Ok(Obj(1));
    assert Walk(h', Obj(0), ["a", "k"]) == Ok(Str("x"));
  }
}
