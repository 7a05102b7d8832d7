/**
  The page documents the editor stores and renders: plain JSON trees, as
  `JSON.parse` produces them. Objects list their entries in the order
  `Object.entries` returns them; nothing aliases, so a tree is a value.
*/
module PageJson {
  import opened JsBase

  datatype Json =
    | Undef
    | Null
    | Bool(b: bool)
    | Num(n: int)
    | Str(s: string)
    | Arr(items: seq<Json>)
    | Obj(entries: seq<(string, Json)>)

  /** JavaScript truthiness; arrays and objects are truthy even when empty. */
  predicate Truthy(j: Json) {
    match j
    case Undef => false
    case Null => false
    case Bool(b) => b
    case Num(n) => n != 0
    case Str(s) => s != ""
    case Arr(_) => true
    case Obj(_) => true
  }

  /** `v === undefined || v === null`, the test of `??` and `?.`. */
  predicate Nullish(j: Json) {
    j.Undef? || j.Null?
  }

  /** The index of the first entry named `k`, if any. */
  function Find(es: seq<(string, Json)>, k: string): (r: Option<nat>)
    ensures r.Some? ==> r.value < |es| && es[r.value].0 == k && forall i :: 0 <= i < r.value ==> es[i].0 != k
    ensures r.None? ==> forall i :: 0 <= i < |es| ==> es[i].0 != k
  {
    if es == [] then None
    else if es[0].0 == k then Some(0)
    else match Find(es[1..], k)
      case None => None
      case Some(i) => Some(i + 1)
  }

  /**
    `j.k` (and `j?.k`) for the property names the editor reads: an own
    entry of an object, `undefined` on everything else.
  */
  function Prop(j: Json, k: string): (r: Json)
    ensures !j.Obj? ==> r == Undef
    ensures j.Obj? && (forall i :: 0 <= i < |j.entries| ==> j.entries[i].0 != k) ==> r == Undef
  {
    if j.Obj? then
      match Find(j.entries, k)
      case None => Undef
      case Some(i) => j.entries[i].1
    else Undef
  }

  /** The entries `Object.entries` gives for a list whose first element sits at index `k`. */
  function IndexedFrom(items: seq<Json>, k: nat): (es: seq<(string, Json)>)
    ensures |es| == |items|
  {
    if items == [] then [] else [(NatToDecimal(k), items[0])] + IndexedFrom(items[1..], k + 1)
  }

  /** The index-keyed entries of an array. */
  function Indexed(items: seq<Json>): (es: seq<(string, Json)>)
    ensures |es| == |items|
  {
    IndexedFrom(items, 0)
  }

  /** One single-character string per character of `s`. */
  function Characters(s: string): (cs: seq<Json>)
    ensures |cs| == |s|
  {
    if s == [] then [] else [Str([s[0]])] + Characters(s[1..])
  }

  /**
    `Object.entries(j)`: an object's own entries, the indexed elements of
    an array or characters of a string, nothing for a number or boolean;
    `undefined` and `null` throw.
  */
  function Entries(j: Json): (r: Eval<seq<(string, Json)>>)
    ensures r.Throws? <==> Nullish(j)
    ensures j.Obj? ==> r == Ok(j.entries)
    ensures j.Bool? || j.Num? ==> r == Ok([])
  {
    match j
    case Undef => Throws
    case Null => Throws
    case Bool(_) => Ok([])
    case Num(_) => Ok([])
    case Str(s) => Ok(Indexed(Characters(s)))
    case Arr(items) => Ok(Indexed(items))
    case Obj(es) => Ok(es)
  }

  /** The elements of an array joined with `,`, `undefined` and `null` as empty text (`Array.prototype.join`). */
  function JoinItems(items: seq<Json>): string
    decreases items, 0
  {
    if items == [] then ""
    else
      var first := if Nullish(items[0]) then "" else JsString(items[0]);
      if |items| == 1 then first else first + "," + JoinItems(items[1..])
  }

  /** `${j}`: the text a template literal substitutes. */
  function JsString(j: Json): string
    decreases j, 1
  {
    match j
    case Undef => "undefined"
    case Null => "null"
    case Bool(b) => if b then "true" else "false"
    case Num(n) => IntToDecimal(n)
    case Str(s) => s
    case Arr(items) => JoinItems(items)
    case Obj(_) => "[object Object]"
  }
}
