/**
  The imperative condition engine of utilities/operations.js over a
  mutable context. `Context` holds the heap the request and response
  objects live in and the address of `data = { req, res }`
  (utilities/handlers.js:9). Each method is proved to do what the
  corresponding specification function of JsHeap and Conditions says,
  state included, so every law proved there holds of these methods.
*/
module Engine {
  import opened JsBase
  import opened Values
  import opened JsHeap
  import opened ArgumentPaths
  import opened Template
  import opened Conditions

  class Context {
    var heap: Heap
    const root: nat

    constructor(h: Heap, data: nat)
      ensures heap == h && root == data
    {
      heap := h;
      root := data;
    }

    /**
      The cursor loop shared by both path walkers (lines 2-3 and 9-10):
      steps through all segments but the last.
    */
    method Parent(path: seq<string>) returns (r: Eval<Value>)
      ensures r == Walk(heap, Obj(root), Front(path))
    {
      var front := Front(path);
      var current := Obj(root);
      for depth := 0 to |front|
        invariant Walk(heap, Obj(root), front[..depth]) == Ok(current)
      {
        assert front[..depth + 1][..depth] == front[..depth];
        var next := Get(heap, current, front[depth]);
        if next.Throws? {
          WalkStaysThrown(heap, Obj(root), front, depth + 1);
          return Throws;
        }
        current := next.value;
      }
      assert front[..|front|] == front;
      return Ok(current);
    }

    /** convertPathToString(data, path) (lines 8-12). */
    method ConvertPathToString(path: seq<string>) returns (r: Eval<Value>)
      ensures r == ReadPath(heap, root, path)
    {
      var current := Parent(path);
      if current.Throws? {
        return Throws;
      }
      r := Get(heap, current.value, LastKey(path));
    }

    /** setObjectFromPath(data, path, value) (lines 1-6): assigns in place and returns `data`. */
    method SetObjectFromPath(path: seq<string>, value: Value) returns (r: Eval<Value>)
      modifies this
      ensures WritePath(old(heap), root, path, value).Ok? ==>
                r == Ok(Obj(root)) && heap == WritePath(old(heap), root, path, value).value
      ensures WritePath(old(heap), root, path, value).Throws? ==> r == Throws && heap == old(heap)
    {
      var current := Parent(path);
      if current.Throws? || !current.value.Obj? {
        return Throws;
      }
      heap := Update(heap, current.value.addr, LastKey(path), value);
      return Ok(Obj(root));
    }

    /** `prefilter[slot] = convertPathToString(data, convertArgumentToPath(data, prefilter[slot]))` (lines 45-46). */
    method ResolveSlot(pf: nat, slot: string) returns (ok: bool)
      modifies this
      ensures After(heap, !ok) == PrefilterSlot(After(old(heap), false), root, pf, slot)
    {
      var v := Field(heap, pf, slot);
      if v.Str? {
        return true;
      }
      var p := PathOf(heap, v);
      if p.Throws? {
        return false;
      }
      var x := ConvertPathToString(p.value);
      if x.Throws? {
        return false;
      }
      heap := Update(heap, pf, slot, x.value);
      return true;
    }

    /** Line 42: writes the template, its `*` replaced by the resolved first argument; false when that threw. */
    method WriteTemplate(c: Condition, first: Value, path: seq<string>) returns (ok: bool)
      modifies this
      ensures After(heap, !ok) == TemplateStep(After(old(heap), false), root, c, first, path)
    {
      if c.template != "" {
        var w := SetObjectFromPath(path, Str(ReplaceStars(c.template, ToStr(first))));
        return w.Ok?;
      }
      return true;
    }

    /** Lines 43-44: resolves `assign` and writes it when truthy; false when that threw. */
    method WriteAssign(c: Condition, path: seq<string>) returns (ok: bool)
      modifies this
      ensures After(heap, !ok) == AssignStep(After(old(heap), false), root, c, path)
    {
      var assign := c.assign;
      if Truthy(assign) && !assign.Str? {
        var p := PathOf(heap, assign);
        if p.Throws? {
          return false;
        }
        var v := ConvertPathToString(p.value);
        if v.Throws? {
          return false;
        }
        assign := v.value;
      }
      if Truthy(c.assign) && Truthy(assign) {
        var w := SetObjectFromPath(path, assign);
        return w.Ok?;
      }
      return true;
    }

    /** Lines 45-47: resolves the prefilter's slots and stores it at `res.filter`; false when that threw. */
    method StorePrefilter(prefilter: Option<nat>) returns (ok: bool)
      modifies this
      ensures After(heap, !ok) == PrefilterStep(After(old(heap), false), root, prefilter)
    {
      if prefilter.None? {
        return true;
      }
      var pf := prefilter.value;
      ok := ResolveSlot(pf, "lookup");
      if !ok {
        return false;
      }
      ok := ResolveSlot(pf, "match");
      if !ok {
        return false;
      }
      var w := SetObjectFromPath(["res", "filter"], Obj(pf));
      return w.Ok?;
    }

    /** The writes of a passing condition (lines 39-47), in source order; false when one of them threw. */
    method ApplyEffects(c: Condition, first: Value, firstPath: seq<string>, secondPath: Option<seq<string>>) returns (ok: bool)
      modifies this
      ensures After(heap, !ok) == Effects(old(heap), root, c, first, firstPath, secondPath)
    {
      var actionOriginPath := firstPath;
      if c.template != "" || Truthy(c.assign) {
        if c.origin == Str("secondArg") && secondPath.Some? {
          actionOriginPath := secondPath.value;
        }
        if Truthy(c.origin) && !c.origin.Str? {
          var p := PathOf(heap, c.origin);
          if p.Throws? {
            return false;
          }
          actionOriginPath := p.value;
        }
        assert Origin(heap, c, firstPath, secondPath) == Ok(actionOriginPath);
        ok := WriteTemplate(c, first, actionOriginPath);
        if !ok {
          return false;
        }
        ok := WriteAssign(c, actionOriginPath);
        if !ok {
          return false;
        }
      }
      ok := StorePrefilter(c.prefilter);
    }

    /** One condition object (lines 28-47), given the operation the previous member left. */
    method ApplyCondition(op: Outcome, c: Condition) returns (r: Eval<Outcome>)
      modifies this
      ensures Run(heap, r) == ConditionStep(old(heap), root, op, c)
    {
      var firstArgPath: seq<string> := [];
      if Truthy(c.firstArg) {
        var p := PathOf(heap, c.firstArg);
        if p.Throws? {
          return Throws;
        }
        firstArgPath := p.value;
      }
      var secondArgPath: Option<seq<string>> := None;
      if Truthy(c.secondArg) {
        var p := PathOf(heap, c.secondArg);
        if p.Throws? {
          return Throws;
        }
        secondArgPath := Some(p.value);
      }
      var first := c.firstArg;
      if Truthy(first) && !first.Str? {
        var v := ConvertPathToString(firstArgPath);
        if v.Throws? {
          return Throws;
        }
        first := v.value;
      }
      var second := c.secondArg;
      if Truthy(second) && !second.Str? {
        var v := ConvertPathToString(secondArgPath.value);
        if v.Throws? {
          return Throws;
        }
        second := v.value;
      }
      var operation := op;
      if c.equality && Truthy(second) {
        operation := if first == second then Passed else Failed(c);
      }
      if c.typeCheck != "" && Truthy(first) {
        operation := if TypeOf(first) == c.typeCheck then Passed else Failed(c);
      }
      if c.existence && Truthy(first) {
        operation := Passed;
      }
      if !Truthy(first) {
        operation := Failed(c);
      }
      if operation.status {
        var ok := ApplyEffects(c, first, firstArgPath, secondArgPath);
        if !ok {
          return Throws;
        }
      }
      return Ok(operation);
    }

    /**
      parseConditions(data, mode, conditions) (lines 23-56): runs the
      members in order, threading the operation and the messages, and
      returns early as the mode says.
    */
    method ParseConditions(mode: string, conditions: seq<Node>) returns (r: Eval<Option<Outcome>>)
      modifies this
      ensures Run(heap, r) == EvalGroup(old(heap), root, mode, conditions)
      decreases Group(mode, conditions)
    {
      var errorMessages: seq<Message> := [];
      var operation := Initial;
      var i := 0;
      while i < |conditions|
        invariant 0 <= i <= |conditions|
        decreases |conditions| - i
        invariant ScanFrom(heap, root, mode, conditions, i, operation, errorMessages) ==
                  ScanFrom(old(heap), root, mode, conditions, 0, Initial, [])
      {
        var step: Eval<Outcome>;
        match conditions[i] {
          case Group(m, members) =>
            var g := ParseConditions(m, members);
            step := if g.Ok? && g.value.Some? then Ok(g.value.value) else Throws;
          case Cond(c) =>
            step := ApplyCondition(operation, c);
        }
        if step.Throws? {
          return Throws;
        }
        operation := step.value;
        if MessageTruthy(operation) {
          errorMessages := errorMessages + [operation.message.value];
        }
        if (operation.status && mode == "any") || (!operation.status && mode == "all") {
          return Ok(Some(operation));
        }
        i := i + 1;
      }
      if errorMessages == [] {
        errorMessages := [Text("unknownError")];
      }
      if mode == "any" {
        return Ok(Some(Outcome(false, Some(Many(errorMessages)))));
      } else if mode == "all" {
        return Ok(Some(Passed));
      } else if mode == "optional" {
        return Ok(Some(Passed));
      }
      return Ok(None);
    }
  }
}
