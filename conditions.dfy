/**
  The specification of parseConditions (utilities/operations.js:23-56):
  what one pass over a rule tree decides and what it writes into the
  context.

  A condition resolves `firstArg` and `secondArg` (a non-string argument
  names a path into the context), reaches a verdict by the equality, type
  and existence checks in source order, and, when the verdict is a pass,
  writes its `template`, its `assign` and its `prefilter` into the context.
  A group runs its members in order under a mode: `all` stops at the first
  failure, `any` at the first pass, `optional` never stops. A TypeError
  (reading through `undefined`, assigning into a primitive) ends the whole
  pass; the context keeps whatever was written before it.
*/
module Conditions {
  import opened JsBase
  import opened Values
  import opened JsHeap
  import opened ArgumentPaths
  import opened Template

  /** A failure message: a rule's string, or the list an `any` group collected. */
  datatype Message = Text(s: string) | Many(items: seq<Message>)

  /** The `operation` record: `{status}` or `{status, message}`. */
  datatype Outcome = Outcome(status: bool, message: Option<Message>)

  /**
    One condition object. The `type` key is the runtime-type check
    (`typeCheck`, "" when absent), not the mode of the group; `template`
    is "" when absent; `prefilter` is the address of the rule's own
    `{lookup, match}` object.
  */
  datatype Condition = Condition(
    firstArg: Value,
    secondArg: Value,
    equality: bool,
    typeCheck: string,
    existence: bool,
    assign: Value,
    template: string,
    origin: Value,
    prefilter: Option<nat>,
    message: Option<string>)

  /** A member of a group: a condition, or a nested `[mode, ...members]` array. */
  datatype Node = Cond(c: Condition) | Group(mode: string, members: seq<Node>)

  /** The state of a pass together with how it ended. */
  datatype Run<+T> = Run(heap: Heap, out: Eval<T>)

  /** The effects of a pass so far, and whether one of them threw. */
  datatype After = After(heap: Heap, threw: bool)

  /** How a scan over the members of a group ended: by an early return, or by running out of members. */
  datatype Scan =
    | Stopped(heap: Heap, out: Eval<Outcome>)
    | Finished(heap: Heap, op: Outcome, msgs: seq<Message>)

  const Passed := Outcome(true, None)

  /** The operation a group starts with: `{ status: false }`. */
  const Initial := Outcome(false, None)

  /** `{ status: false, message }` for the condition's own message. */
  function Failed(c: Condition): Outcome {
    Outcome(false, if c.message.Some? then Some(Text(c.message.value)) else None)
  }

  /** A message JavaScript treats as truthy: an empty string is falsy, an array never is. */
  predicate Shown(m: Message) {
    m.Many? || m.s != ""
  }

  /** `if (operation.message)`. */
  predicate MessageTruthy(o: Outcome) {
    o.message.Some? && Shown(o.message.value)
  }

  /** The segments of `firstArg` (line 30); unused when `firstArg` is falsy, since the condition then fails. */
  function FirstPath(h: Heap, c: Condition): Eval<seq<string>> {
    if Truthy(c.firstArg) then PathOf(h, c.firstArg) else Ok([])
  }

  /** The segments of `secondArg` (line 31); absent when `secondArg` is falsy. */
  function SecondPath(h: Heap, c: Condition): Eval<Option<seq<string>>> {
    if !Truthy(c.secondArg) then Ok(None)
    else match PathOf(h, c.secondArg)
      case Throws => Throws
      case Ok(p) => Ok(Some(p))
  }

  /** Lines 33-34: a truthy non-string argument is replaced by the value at its path. */
  function Deref(h: Heap, root: nat, v: Value, path: seq<string>): Eval<Value> {
    if Truthy(v) && !v.Str? then ReadPath(h, root, path) else Ok(v)
  }

  /** `convertPathToString(data, convertArgumentToPath(data, v))` for a truthy non-string `v`. */
  function Resolve(h: Heap, root: nat, v: Value): (r: Eval<Value>)
    ensures !Truthy(v) || v.Str? ==> r == Ok(v)
    ensures v.Desc? && Literal(v) ==> r == ReadPath(h, root, Segments(v))
  {
    if Truthy(v) && !v.Str? then
      if v.Desc? && Literal(v) then
        LiteralPathIgnoresContext(h, v, [], |h.Keys|);
        assert [] + Segments(v) == Segments(v);
        ReadThrough(h, root, PathOf(h, v))
      else ReadThrough(h, root, PathOf(h, v))
    else Ok(v)
  }

  /** The read of a path that may itself have thrown while it was built. */
  function ReadThrough(h: Heap, root: nat, path: Eval<seq<string>>): Eval<Value> {
    match path
    case Throws => Throws
    case Ok(p) => ReadPath(h, root, p)
  }

  /**
    Lines 35-38: the verdict of one condition over the resolved arguments,
    each check overwriting the previous operation in source order.
  */
  function Verdict(op: Outcome, c: Condition, first: Value, second: Value): (r: Outcome)
    ensures !Truthy(first) ==> r == Failed(c)
    ensures Truthy(first) && c.existence ==> r == Passed
    ensures Truthy(first) && !c.existence && c.typeCheck != "" ==>
              r == (if TypeOf(first) == c.typeCheck then Passed else Failed(c))
    ensures Truthy(first) && !c.existence && c.typeCheck == "" && c.equality && Truthy(second) ==>
              r == (if first == second then Passed else Failed(c))
    ensures Truthy(first) && !c.existence && c.typeCheck == "" && !(c.equality && Truthy(second)) ==>
              r == op
  {
    var afterEquality := if c.equality && Truthy(second) then (if first == second then Passed else Failed(c)) else op;
    var afterType := if c.typeCheck != "" && Truthy(first) then (if TypeOf(first) == c.typeCheck then Passed else Failed(c)) else afterEquality;
    var afterExistence := if c.existence && Truthy(first) then Passed else afterType;
    if !Truthy(first) then Failed(c) else afterExistence
  }

  /**
    Lines 32, 39 and 41: where `template` and `assign` write. A truthy
    non-string `origin` names the path itself; the string 'secondArg'
    selects the path of `secondArg` when there is one; otherwise it is the
    path of `firstArg`.
  */
  function Origin(h: Heap, c: Condition, firstPath: seq<string>, secondPath: Option<seq<string>>): (r: Eval<seq<string>>)
    ensures c.origin.Desc? && Literal(c.origin) ==> r == Ok(Segments(c.origin))
    ensures Literal(c.origin) ==> r.Ok?
    ensures !Truthy(c.origin) ==> r == Ok(firstPath)
    ensures c.origin == Str("secondArg") && secondPath.Some? ==> r == Ok(secondPath.value)
    ensures c.origin.Str? && !(c.origin == Str("secondArg") && secondPath.Some?) ==> r == Ok(firstPath)
  {
    if Truthy(c.origin) && !c.origin.Str? then
      if c.origin.Desc? && Literal(c.origin) then
        LiteralPathIgnoresContext(h, c.origin, [], |h.Keys|);
        assert [] + Segments(c.origin) == Segments(c.origin);
        PathOf(h, c.origin)
      else PathOf(h, c.origin)
    else if c.origin == Str("secondArg") && secondPath.Some? then Ok(secondPath.value)
    else Ok(firstPath)
  }

  /** An assignment at `path` that keeps the heap as it was when it throws. */
  function Write(h: Heap, root: nat, path: seq<string>, v: Value): (a: After)
    ensures a.threw ==> a.heap == h
    ensures !a.threw ==> Ok(a.heap) == WritePath(h, root, path, v)
  {
    match WritePath(h, root, path, v)
    case Throws => After(h, true)
    case Ok(h') => After(h', false)
  }

  /** Line 42: the template, every `*` replaced by the resolved `firstArg`, written at the origin. */
  function TemplateStep(a: After, root: nat, c: Condition, first: Value, path: seq<string>): After {
    if a.threw || c.template == "" then a
    else Write(a.heap, root, path, Str(ReplaceStars(c.template, ToStr(first))))
  }

  /** Lines 43-44: `assign`, resolved after the template was written, written at the origin when truthy. */
  function AssignStep(a: After, root: nat, c: Condition, path: seq<string>): After {
    if a.threw || !Truthy(c.assign) then a
    else match Resolve(a.heap, root, c.assign)
      case Throws => After(a.heap, true)
      case Ok(v) => if Truthy(v) then Write(a.heap, root, path, v) else a
  }

  /** Lines 45-46 for one slot: a non-string slot of the rule's prefilter object is replaced by what it names. */
  function PrefilterSlot(a: After, root: nat, pf: nat, slot: string): (r: After)
    ensures a.threw ==> r == a
    ensures !a.threw && Field(a.heap, pf, slot).Str? ==> r == a
    ensures !a.threw && !Field(a.heap, pf, slot).Str? && !r.threw ==>
              PathOf(a.heap, Field(a.heap, pf, slot)).Ok? &&
              ReadPath(a.heap, root, PathOf(a.heap, Field(a.heap, pf, slot)).value).Ok? &&
              Field(r.heap, pf, slot) == ReadPath(a.heap, root, PathOf(a.heap, Field(a.heap, pf, slot)).value).value
    ensures !r.threw ==> forall b, k :: (b != pf || k != slot) ==> Field(r.heap, b, k) == Field(a.heap, b, k)
  {
    if a.threw then a
    else
      var v := Field(a.heap, pf, slot);
      if v.Str? then a
      else match PathOf(a.heap, v)
        case Throws => After(a.heap, true)
        case Ok(p) =>
          match ReadPath(a.heap, root, p)
          case Throws => After(a.heap, true)
          case Ok(x) => After(Update(a.heap, pf, slot, x), false)
  }

  /** Lines 45-47: the prefilter object, its slots resolved, is stored at `res.filter`. */
  function PrefilterStep(a: After, root: nat, prefilter: Option<nat>): After {
    if a.threw || prefilter.None? then a
    else
      var pf := prefilter.value;
      var b := PrefilterSlot(PrefilterSlot(a, root, pf, "lookup"), root, pf, "match");
      if b.threw then b else Write(b.heap, root, ["res", "filter"], Obj(pf))
  }

  /** Lines 39-47: the writes of a passing condition, in source order. */
  function Effects(h: Heap, root: nat, c: Condition, first: Value, firstPath: seq<string>, secondPath: Option<seq<string>>): After {
    if c.template == "" && !Truthy(c.assign) then PrefilterStep(After(h, false), root, c.prefilter)
    else match Origin(h, c, firstPath, secondPath)
      case Throws => After(h, true)
      case Ok(path) =>
        var written := AssignStep(TemplateStep(After(h, false), root, c, first, path), root, c, path);
        PrefilterStep(written, root, c.prefilter)
  }

  /** Lines 28-47: one condition, given the operation the previous member left. */
  function ConditionStep(h: Heap, root: nat, op: Outcome, c: Condition): Run<Outcome> {
    match FirstPath(h, c)
    case Throws => Run(h, Throws)
    case Ok(firstPath) =>
      match SecondPath(h, c)
      case Throws => Run(h, Throws)
      case Ok(secondPath) =>
        match Deref(h, root, c.firstArg, firstPath)
        case Throws => Run(h, Throws)
        case Ok(first) =>
          match Deref(h, root, c.secondArg, if secondPath.Some? then secondPath.value else [])
          case Throws => Run(h, Throws)
          case Ok(second) =>
            var o := Verdict(op, c, first, second);
            if !o.status then Run(h, Ok(o))
            else
              var a := Effects(h, root, c, first, firstPath, secondPath);
              Run(a.heap, if a.threw then Throws else Ok(o))
  }

  /**
    Line 26: a nested array is evaluated with its own mode, and what it
    returns becomes the operation. A group that returns nothing (an unknown
    mode) makes the next read of `operation.message` throw.
  */
  function NodeStep(h: Heap, root: nat, op: Outcome, n: Node): Run<Outcome>
    decreases n, 2
  {
    match n
    case Cond(c) => ConditionStep(h, root, op, c)
    case Group(mode, members) =>
      var g := EvalGroup(h, root, mode, members);
      Run(g.heap, match g.out
        case Throws => Throws
        case Ok(None) => Throws
        case Ok(Some(o)) => Ok(o))
  }

  /** Lines 25-51: the members from index `i` on, with the operation and messages so far. */
  function ScanFrom(h: Heap, root: nat, mode: string, nodes: seq<Node>, i: nat, op: Outcome, msgs: seq<Message>): Scan
    requires i <= |nodes|
    decreases Group(mode, nodes), 0, |nodes| - i
  {
    if i == |nodes| then Finished(h, op, msgs)
    else
      var r := NodeStep(h, root, op, nodes[i]);
      match r.out
      case Throws => Stopped(r.heap, Throws)
      case Ok(o) =>
        if (o.status && mode == "any") || (!o.status && mode == "all") then Stopped(r.heap, Ok(o))
        else ScanFrom(r.heap, root, mode, nodes, i + 1, o, if MessageTruthy(o) then msgs + [o.message.value] else msgs)
  }

  /** Lines 52-55: the result of a group whose members all ran. */
  function Finish(mode: string, msgs: seq<Message>): (r: Option<Outcome>)
    ensures r.Some? <==> mode == "any" || mode == "all" || mode == "optional"
    ensures r.Some? && mode != "any" ==> r.value == Passed
    ensures mode == "any" ==> !r.value.status && r.value.message.Some? && r.value.message.value.Many? &&
                              |r.value.message.value.items| >= 1
    ensures mode == "any" && msgs != [] ==> r.value.message.value.items == msgs
    ensures mode == "any" && msgs == [] ==> r == Some(Outcome(false, Some(Many([Text("unknownError")]))))
  {
    var messages := if msgs == [] then [Text("unknownError")] else msgs;
    if mode == "any" then Some(Outcome(false, Some(Many(messages))))
    else if mode == "all" then Some(Passed)
    else if mode == "optional" then Some(Passed)
    else None
  }

  /** parseConditions(data, mode, nodes): the result (`None` for `undefined`) and the context after the pass. */
  function EvalGroup(h: Heap, root: nat, mode: string, nodes: seq<Node>): Run<Option<Outcome>>
    decreases Group(mode, nodes), 1
  {
    match ScanFrom(h, root, mode, nodes, 0, Initial, [])
    case Stopped(h', out) =>
      Run(h', match out
        case Throws => Throws
        case Ok(o) => Ok(Some(o)))
    case Finished(h', _, msgs) => Run(h', Ok(Finish(mode, msgs)))
  }
}
