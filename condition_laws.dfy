/**
  What parseConditions guarantees, stated over its specification: the
  verdict and writes of one condition, the write order of `template` and
  `assign`, the prefilter, and how the modes compose a group.
*/
module ConditionLaws {
  import opened JsBase
  import opened Values
  import opened JsHeap
  import opened ArgumentPaths
  import opened Conditions

  // ---------------------------------------------------------------------
  // One condition
  // ---------------------------------------------------------------------

  /**
    A condition ends with a pass, its own failure, or the operation it was
    handed; it writes nothing unless it passes; a condition without
    `template`, `assign` and `prefilter` never writes; and a condition
    whose `firstArg` is falsy fails with its own message and writes nothing.
  */
  lemma ConditionStepLaws(h: Heap, root: nat, op: Outcome, c: Condition)
    ensures var r := ConditionStep(h, root, op, c);
            r.out.Ok? ==> r.out.value == Passed || r.out.value == Failed(c) || r.out.value == op
    ensures var r := ConditionStep(h, root, op, c);
            r.out.Ok? && !r.out.value.status ==> r.heap == h
    ensures c.template == "" && !Truthy(c.assign) && c.prefilter.None? ==> ConditionStep(h, root, op, c).heap == h
    ensures var r := ConditionStep(h, root, op, c);
            !Truthy(c.firstArg) ==> r.heap == h && (r.out.Ok? ==> r.out.value == Failed(c))
  {
  }

  /** One condition once both arguments are resolved: the verdict, then the writes of a pass. */
  lemma ConditionStepResolved(h: Heap, root: nat, op: Outcome, c: Condition,
                              firstPath: seq<string>, secondPath: Option<seq<string>>, first: Value, second: Value)
    requires FirstPath(h, c) == Ok(firstPath) && SecondPath(h, c) == Ok(secondPath)
    requires Deref(h, root, c.firstArg, firstPath) == Ok(first)
    requires Deref(h, root, c.secondArg, if secondPath.Some? then secondPath.value else []) == Ok(second)
    ensures var o := Verdict(op, c, first, second);
            var a := Effects(h, root, c, first, firstPath, secondPath);
            ConditionStep(h, root, op, c) ==
            if !o.status then Run(h, Ok(o)) else Run(a.heap, if a.threw then Throws else Ok(o))
  {
  }

  /** A condition without `template`, `assign` and `prefilter` only checks: its verdict, the context untouched. */
  lemma CheckOnly(h: Heap, root: nat, op: Outcome, c: Condition,
                  firstPath: seq<string>, secondPath: Option<seq<string>>, first: Value, second: Value)
    requires FirstPath(h, c) == Ok(firstPath) && SecondPath(h, c) == Ok(secondPath)
    requires Deref(h, root, c.firstArg, firstPath) == Ok(first)
    requires Deref(h, root, c.secondArg, if secondPath.Some? then secondPath.value else []) == Ok(second)
    requires c.template == "" && !Truthy(c.assign) && c.prefilter.None?
    ensures ConditionStep(h, root, op, c) == Run(h, Ok(Verdict(op, c, first, second)))
  {
    ConditionStepResolved(h, root, op, c, firstPath, secondPath, first, second);
  }

  /**
    A condition none of whose checks fires (no existence or type check,
    no equality against a truthy `secondArg`) and whose resolved `firstArg`
    is truthy hands on the operation before it: after a failure it returns
    that failure and writes nothing; after a pass it passes and writes.
  */
  lemma CarriedPassWrites(h: Heap, root: nat, op: Outcome, c: Condition,
                          firstPath: seq<string>, secondPath: Option<seq<string>>, first: Value, second: Value)
    requires FirstPath(h, c) == Ok(firstPath) && SecondPath(h, c) == Ok(secondPath)
    requires Deref(h, root, c.firstArg, firstPath) == Ok(first)
    requires Deref(h, root, c.secondArg, if secondPath.Some? then secondPath.value else []) == Ok(second)
    requires Truthy(first) && !c.existence && c.typeCheck == "" && !(c.equality && Truthy(second))
    ensures !op.status ==> ConditionStep(h, root, op, c) == Run(h, Ok(op))
    ensures var a := Effects(h, root, c, first, firstPath, secondPath);
            op.status ==> ConditionStep(h, root, op, c) == Run(a.heap, if a.threw then Throws else Ok(op))
  {
    ConditionStepResolved(h, root, op, c, firstPath, secondPath, first, second);
  }

  /**
    `assign` is written after `template` at the same origin, so when both
    apply the template leaves no trace: the context is exactly what the
    assignment alone makes of it, and the origin reads back the assigned
    value. The value itself is resolved after the template was written.
  */
  lemma AssignOverwritesTemplate(h: Heap, root: nat, c: Condition, first: Value, path: seq<string>)
    requires c.template != "" && Truthy(c.assign)
    requires !TemplateStep(After(h, false), root, c, first, path).threw
    requires var a1 := TemplateStep(After(h, false), root, c, first, path);
             Resolve(a1.heap, root, c.assign).Ok? && Truthy(Resolve(a1.heap, root, c.assign).value)
    requires RouteIntact(h, root, path)
    ensures var a1 := TemplateStep(After(h, false), root, c, first, path);
            var v := Resolve(a1.heap, root, c.assign).value;
            var a2 := AssignStep(a1, root, c, path);
            !a2.threw && Ok(a2.heap) == WritePath(h, root, path, v) && ReadPath(a2.heap, root, path) == Ok(v)
  {
    var t := Str(Template.ReplaceStars(c.template, ToStr(first)));
    var a1 := TemplateStep(After(h, false), root, c, first, path);
    var v := Resolve(a1.heap, root, c.assign).value;
    assert Ok(a1.heap) == WritePath(h, root, path, t);
    var a := Walk(h, Obj(root), Front(path)).value.addr;
    WalkFrame(h, Obj(root), Front(path), a, LastKey(path), t);
    assert Walk(a1.heap, Obj(root), Front(path)) == Ok(Obj(a));
    WriteTwice(h, root, path, t, v);
    WriteThenRead(h, root, path, v);
  }

  // ---------------------------------------------------------------------
  // Prefilter
  // ---------------------------------------------------------------------

  /** Walking to `res` never reads the property `filter`, whatever the context. */
  lemma FilterRouteIntact(h: Heap, root: nat)
    ensures RouteIntact(h, root, ["res", "filter"])
  {
    assert Front(["res", "filter"]) == ["res"];
    assert ["res"][..0] == [];
  }

  /**
    A prefilter step that does not throw leaves the rule's own prefilter
    object at `res.filter`, with a string `lookup` or `match` as it was and
    a non-string `lookup` or `match` replaced by the value its path names
    (`match` is read after `lookup` was written).
  */
  lemma PrefilterStored(a: After, root: nat, pf: nat)
    requires !a.threw
    ensures var b := PrefilterStep(a, root, Some(pf));
            !b.threw ==> ReadPath(b.heap, root, ["res", "filter"]) == Ok(Obj(pf))
    ensures var b := PrefilterStep(a, root, Some(pf));
            !b.threw && Field(a.heap, pf, "lookup").Str? ==> Field(b.heap, pf, "lookup") == Field(a.heap, pf, "lookup")
    ensures var b := PrefilterStep(a, root, Some(pf));
            !b.threw && Field(a.heap, pf, "match").Str? ==> Field(b.heap, pf, "match") == Field(a.heap, pf, "match")
    ensures var b := PrefilterStep(a, root, Some(pf));
            var slot := Field(a.heap, pf, "lookup");
            !b.threw && !slot.Str? ==>
              PathOf(a.heap, slot).Ok? && ReadPath(a.heap, root, PathOf(a.heap, slot).value).Ok? &&
              Field(b.heap, pf, "lookup") == ReadPath(a.heap, root, PathOf(a.heap, slot).value).value
    ensures var b := PrefilterStep(a, root, Some(pf));
            var a1 := PrefilterSlot(a, root, pf, "lookup");
            var slot := Field(a1.heap, pf, "match");
            !b.threw && !slot.Str? ==>
              PathOf(a1.heap, slot).Ok? && ReadPath(a1.heap, root, PathOf(a1.heap, slot).value).Ok? &&
              Field(b.heap, pf, "match") == ReadPath(a1.heap, root, PathOf(a1.heap, slot).value).value
  {
    var b1 := PrefilterSlot(a, root, pf, "lookup");
    var b2 := PrefilterSlot(b1, root, pf, "match");
    var b := PrefilterStep(a, root, Some(pf));
    if !b.threw {
      assert !b2.threw && !b1.threw;
      FilterRouteIntact(b2.heap, root);
      WriteThenRead(b2.heap, root, ["res", "filter"], Obj(pf));
      var w := Walk(b2.heap, Obj(root), Front(["res", "filter"])).value.addr;
      WriteChangesOneProperty(b2.heap, root, ["res", "filter"], Obj(pf));
      assert Field(b.heap, pf, "lookup") == Field(b2.heap, pf, "lookup");
      assert Field(b.heap, pf, "match") == Field(b2.heap, pf, "match");
      assert Field(b2.heap, pf, "lookup") == Field(b1.heap, pf, "lookup");
    }
  }

  /**
    The prefilter object belongs to the rule, not to the request: once both
    of its slots hold strings (for instance because an earlier request
    resolved them to strings), every later pass stores them as they are
    and never reads the context for them again.
  */
  lemma PrefilterSettles(a: After, root: nat, pf: nat)
    requires !a.threw && Field(a.heap, pf, "lookup").Str? && Field(a.heap, pf, "match").Str?
    ensures PrefilterStep(a, root, Some(pf)) == Write(a.heap, root, ["res", "filter"], Obj(pf))
  {
  }

  // ---------------------------------------------------------------------
  // Groups
  // ---------------------------------------------------------------------

  /** What is left to run after a prefix of the members: nothing once the scan stopped. */
  function Continue(s: Scan, root: nat, mode: string, rest: seq<Node>): Scan {
    match s
    case Stopped(_, _) => s
    case Finished(h, op, msgs) => ScanFrom(h, root, mode, rest, 0, op, msgs)
  }

  /** The messages carried by an outcome, pushed when truthy (line 49). */
  function AfterPush(o: Outcome, msgs: seq<Message>): seq<Message> {
    if MessageTruthy(o) then msgs + [o.message.value] else msgs
  }

  /** One condition of a group: it returns early as the mode says, or the scan goes on from its result. */
  lemma ScanCondition(h: Heap, root: nat, mode: string, nodes: seq<Node>, i: nat, op: Outcome, msgs: seq<Message>,
                      c: Condition, h': Heap, o: Outcome)
    requires i < |nodes| && nodes[i] == Cond(c) && ConditionStep(h, root, op, c) == Run(h', Ok(o))
    ensures ScanFrom(h, root, mode, nodes, i, op, msgs) ==
            if (o.status && mode == "any") || (!o.status && mode == "all") then Stopped(h', Ok(o))
            else ScanFrom(h', root, mode, nodes, i + 1, o, AfterPush(o, msgs))
  {
  }

  /** A group of one condition that passes: `all` and `optional` both pass, with the context it left. */
  lemma SinglePass(h: Heap, root: nat, mode: string, c: Condition, h': Heap)
    requires mode == "all" || mode == "optional"
    requires ConditionStep(h, root, Initial, c) == Run(h', Ok(Passed))
    ensures EvalGroup(h, root, mode, [Cond(c)]) == Run(h', Ok(Some(Passed)))
  {
    ScanCondition(h, root, mode, [Cond(c)], 0, Initial, [], c, h', Passed);
    assert ScanFrom(h', root, mode, [Cond(c)], 1, Passed, []) == Finished(h', Passed, []);
  }

  /**
    An `any` group of two conditions whose first fails without writing:
    the second decides, and when it fails too the group fails with their
    truthy messages.
  */
  lemma AnyOfTwo(h: Heap, root: nat, c1: Condition, c2: Condition, o1: Outcome, o2: Outcome)
    requires ConditionStep(h, root, Initial, c1) == Run(h, Ok(o1)) && !o1.status
    requires ConditionStep(h, root, o1, c2) == Run(h, Ok(o2))
    ensures EvalGroup(h, root, "any", [Cond(c1), Cond(c2)]) ==
            if o2.status then Run(h, Ok(Some(o2)))
            else Run(h, Ok(Finish("any", AfterPush(o2, AfterPush(o1, [])))))
  {
    var nodes := [Cond(c1), Cond(c2)];
    ScanCondition(h, root, "any", nodes, 0, Initial, [], c1, h, o1);
    ScanCondition(h, root, "any", nodes, 1, o1, AfterPush(o1, []), c2, h, o2);
  }

  /**
    An `any` group of two conditions that both fail without writing fails
    with their two messages, in order.
  */
  lemma AnyBothFail(h: Heap, root: nat, c1: Condition, c2: Condition, m1: string, m2: string)
    requires c1.message == Some(m1) && m1 != "" && m2 != ""
    requires ConditionStep(h, root, Initial, c1) == Run(h, Ok(Failed(c1)))
    requires ConditionStep(h, root, Failed(c1), c2) == Run(h, Ok(Outcome(false, Some(Text(m2)))))
    ensures EvalGroup(h, root, "any", [Cond(c1), Cond(c2)]) ==
            Run(h, Ok(Some(Outcome(false, Some(Many([Text(m1), Text(m2)]))))))
  {
    var o2 := Outcome(false, Some(Text(m2)));
    AnyOfTwo(h, root, c1, c2, Failed(c1), o2);
    assert AfterPush(Failed(c1), []) == [Text(m1)];
    assert AfterPush(o2, [Text(m1)]) == [Text(m1), Text(m2)];
  }

  /** Members behind a prefix run exactly as they would on their own. */
  lemma {:induction false} ScanShift(h: Heap, root: nat, mode: string, p: seq<Node>, rest: seq<Node>, j: nat, op: Outcome, msgs: seq<Message>)
    requires j <= |rest|
    ensures ScanFrom(h, root, mode, p + rest, |p| + j, op, msgs) == ScanFrom(h, root, mode, rest, j, op, msgs)
    decreases |rest| - j
  {
    if j < |rest| {
      assert (p + rest)[|p| + j] == rest[j];
      var r := NodeStep(h, root, op, rest[j]);
      if r.out.Ok? {
        ScanShift(r.heap, root, mode, p, rest, j + 1, r.out.value, AfterPush(r.out.value, msgs));
      }
    }
  }

  /**
    Sequential composition: running `p + rest` is running `p`, then, only
    if `p` did not return early or throw, running `rest` from where `p`
    left the context, the operation and the messages.
  */
  lemma {:induction false} ScanAppend(h: Heap, root: nat, mode: string, p: seq<Node>, rest: seq<Node>, i: nat, op: Outcome, msgs: seq<Message>)
    requires i <= |p|
    ensures ScanFrom(h, root, mode, p + rest, i, op, msgs) == Continue(ScanFrom(h, root, mode, p, i, op, msgs), root, mode, rest)
    decreases |p| - i
  {
    if i == |p| {
      ScanShift(h, root, mode, p, rest, 0, op, msgs);
    } else {
      assert (p + rest)[i] == p[i];
      var r := NodeStep(h, root, op, p[i]);
      if r.out.Ok? {
        ScanAppend(r.heap, root, mode, p, rest, i + 1, r.out.value, AfterPush(r.out.value, msgs));
      }
    }
  }

  /** Once a prefix of the members returns early or throws, the members after it are never evaluated. */
  lemma StoppedPrefixDecides(h: Heap, root: nat, mode: string, p: seq<Node>, rest: seq<Node>)
    requires ScanFrom(h, root, mode, p, 0, Initial, []).Stopped?
    ensures EvalGroup(h, root, mode, p + rest) == EvalGroup(h, root, mode, p)
  {
    ScanAppend(h, root, mode, p, rest, 0, Initial, []);
  }

  /** In an `all` group a failing first condition is the group's result, whatever follows it. */
  lemma AllStopsAtFailure(h: Heap, root: nat, c: Condition, rest: seq<Node>)
    requires ConditionStep(h, root, Initial, c).out.Ok? && !ConditionStep(h, root, Initial, c).out.value.status
    ensures EvalGroup(h, root, "all", [Cond(c)] + rest) == Run(h, Ok(Some(ConditionStep(h, root, Initial, c).out.value)))
  {
    ConditionStepLaws(h, root, Initial, c);
    StoppedPrefixDecides(h, root, "all", [Cond(c)], rest);
  }

  /** In an `any` group a passing first condition is the group's result, whatever follows it. */
  lemma AnyStopsAtPass(h: Heap, root: nat, c: Condition, rest: seq<Node>)
    requires ConditionStep(h, root, Initial, c).out.Ok? && ConditionStep(h, root, Initial, c).out.value.status
    ensures EvalGroup(h, root, "any", [Cond(c)] + rest) ==
            Run(ConditionStep(h, root, Initial, c).heap, Ok(Some(Passed)))
  {
    ConditionStepLaws(h, root, Initial, c);
    StoppedPrefixDecides(h, root, "any", [Cond(c)], rest);
  }

  /**
    In an `all` group, the first member that fails returns the group's
    result: once the members before it ran through, a failing condition
    is the result, with the context it leaves, whatever follows it.
  */
  lemma AllStopsAtFailingMember(h: Heap, root: nat, p: seq<Node>, c: Condition, rest: seq<Node>,
                                h': Heap, op: Outcome, msgs: seq<Message>, h'': Heap, o: Outcome)
    requires ScanFrom(h, root, "all", p, 0, Initial, []) == Finished(h', op, msgs)
    requires ConditionStep(h', root, op, c) == Run(h'', Ok(o)) && !o.status
    ensures EvalGroup(h, root, "all", p + [Cond(c)] + rest) == Run(h'', Ok(Some(o)))
  {
    assert p + [Cond(c)] + rest == p + ([Cond(c)] + rest);
    ScanAppend(h, root, "all", p, [Cond(c)] + rest, 0, Initial, []);
    assert ScanFrom(h', root, "all", [Cond(c)] + rest, 0, op, msgs) == Stopped(h'', Ok(o));
  }

  /**
    In an `any` group, the first member that passes returns the group's
    result, with the context it leaves, whatever follows it.
  */
  lemma AnyStopsAtPassingMember(h: Heap, root: nat, p: seq<Node>, c: Condition, rest: seq<Node>,
                                h': Heap, op: Outcome, msgs: seq<Message>, h'': Heap, o: Outcome)
    requires ScanFrom(h, root, "any", p, 0, Initial, []) == Finished(h', op, msgs)
    requires ConditionStep(h', root, op, c) == Run(h'', Ok(o)) && o.status
    ensures EvalGroup(h, root, "any", p + [Cond(c)] + rest) == Run(h'', Ok(Some(o)))
  {
    assert p + [Cond(c)] + rest == p + ([Cond(c)] + rest);
    ScanAppend(h, root, "any", p, [Cond(c)] + rest, 0, Initial, []);
    assert ScanFrom(h', root, "any", [Cond(c)] + rest, 0, op, msgs) == Stopped(h'', Ok(o));
  }

  /**
    How a scan ends: an early return is a pass under `any` or a failure
    under `all` (never under any other mode), and a scan that runs out of
    members has pushed, in order after the ones it started with, only
    truthy messages.
  */
  lemma {:induction false} ScanEnds(h: Heap, root: nat, mode: string, nodes: seq<Node>, i: nat, op: Outcome, msgs: seq<Message>)
    requires i <= |nodes|
    requires forall k :: 0 <= k < |msgs| ==> Shown(msgs[k])
    ensures var s := ScanFrom(h, root, mode, nodes, i, op, msgs);
            s.Stopped? && s.out.Ok? ==> (mode == "any" && s.out.value.status) || (mode == "all" && !s.out.value.status)
    ensures var s := ScanFrom(h, root, mode, nodes, i, op, msgs);
            s.Finished? ==> msgs <= s.msgs && forall k :: 0 <= k < |s.msgs| ==> Shown(s.msgs[k])
    decreases |nodes| - i
  {
    if i < |nodes| {
      var r := NodeStep(h, root, op, nodes[i]);
      if r.out.Ok? {
        var o := r.out.value;
        var next := AfterPush(o, msgs);
        assert forall k :: 0 <= k < |next| ==> Shown(next[k]);
        ScanEnds(r.heap, root, mode, nodes, i + 1, o, next);
      }
    }
  }

  /** An `optional` group passes whenever it does not throw, whatever its members decide. */
  lemma OptionalAlwaysPasses(h: Heap, root: nat, nodes: seq<Node>)
    ensures EvalGroup(h, root, "optional", nodes).out.Ok? ==> EvalGroup(h, root, "optional", nodes).out.value == Some(Passed)
  {
    ScanEnds(h, root, "optional", nodes, 0, Initial, []);
  }

  /** An `all` group passes only by running every member: its pass is the plain `{ status: true }`. */
  lemma AllPassIsCompletion(h: Heap, root: nat, nodes: seq<Node>)
    ensures var r := EvalGroup(h, root, "all", nodes);
            r.out.Ok? && r.out.value.Some? && r.out.value.value.status ==>
              r.out.value.value == Passed && ScanFrom(h, root, "all", nodes, 0, Initial, []).Finished?
  {
    ScanEnds(h, root, "all", nodes, 0, Initial, []);
  }

  /**
    An `any` group fails only after every member failed, with the list of
    the truthy messages its scan collected, or ['unknownError'] when there
    were none.
  */
  lemma AnyFailureCollects(h: Heap, root: nat, nodes: seq<Node>)
    ensures var r := EvalGroup(h, root, "any", nodes);
            var s := ScanFrom(h, root, "any", nodes, 0, Initial, []);
            r.out.Ok? && r.out.value.Some? && !r.out.value.value.status ==>
              s.Finished? &&
              r.out.value.value.message.Some? && r.out.value.value.message.value.Many? &&
              var items := r.out.value.value.message.value.items;
              items == (if s.msgs == [] then [Text("unknownError")] else s.msgs) &&
              |items| >= 1 && forall k :: 0 <= k < |items| ==> Shown(items[k])
  {
    ScanEnds(h, root, "any", nodes, 0, Initial, []);
    var s := ScanFrom(h, root, "any", nodes, 0, Initial, []);
    if s.Finished? && s.msgs == [] {
      assert Finish("any", []) == Some(Outcome(false, Some(Many([Text("unknownError")]))));
    }
  }

  /** The operation member `k` of a group is handed: `{ status: false }` first, then its predecessor's. */
  function Handed(os: seq<Outcome>, k: nat): Outcome
    requires k <= |os|
  {
    if k == 0 then Initial else os[k - 1]
  }

  /** The truthy messages of a list of outcomes, in order (line 49 for each). */
  function Collected(os: seq<Outcome>): seq<Message> {
    if os == [] then [] else AfterPush(os[|os| - 1], Collected(os[..|os| - 1]))
  }

  /** A list of conditions that each fail, without writing, on the operation they are handed. */
  predicate AllFail(h: Heap, root: nat, nodes: seq<Node>, os: seq<Outcome>) {
    |nodes| == |os| &&
    forall k :: 0 <= k < |nodes| ==>
      nodes[k].Cond? && !os[k].status && ConditionStep(h, root, Handed(os, k), nodes[k].c) == Run(h, Ok(os[k]))
  }

  /** A member that fails without writing lets an `any` scan go on, its message pushed. */
  lemma FailGoesOn(h: Heap, root: nat, nodes: seq<Node>, i: nat, op: Outcome, msgs: seq<Message>, o: Outcome)
    requires i < |nodes| && nodes[i].Cond? && !o.status && ConditionStep(h, root, op, nodes[i].c) == Run(h, Ok(o))
    ensures ScanFrom(h, root, "any", nodes, i, op, msgs) == ScanFrom(h, root, "any", nodes, i + 1, o, AfterPush(o, msgs))
  {
  }

  lemma {:induction false} ScanAllFail(h: Heap, root: nat, nodes: seq<Node>, os: seq<Outcome>, i: nat)
    requires AllFail(h, root, nodes, os) && i <= |nodes|
    ensures ScanFrom(h, root, "any", nodes, i, Handed(os, i), Collected(os[..i])) == Finished(h, Handed(os, |os|), Collected(os))
    decreases |nodes| - i
  {
    if i == |nodes| {
      assert os[..i] == os;
    } else {
      var o := os[i];
      var msgs := Collected(os[..i]);
      assert os[..i + 1][..i] == os[..i];
      calc {
        ScanFrom(h, root, "any", nodes, i, Handed(os, i), msgs);
        { FailGoesOn(h, root, nodes, i, Handed(os, i), msgs, o); }
        ScanFrom(h, root, "any", nodes, i + 1, o, AfterPush(o, msgs));
        ScanFrom(h, root, "any", nodes, i + 1, Handed(os, i + 1), Collected(os[..i + 1]));
        { ScanAllFail(h, root, nodes, os, i + 1); }
        Finished(h, Handed(os, |os|), Collected(os));
      }
    }
  }

  /**
    An `any` group of conditions that all fail without writing fails with
    their truthy messages in member order, or ['unknownError'] when none
    has one, and leaves the context as it was.
  */
  lemma AnyAllFail(h: Heap, root: nat, nodes: seq<Node>, os: seq<Outcome>)
    requires AllFail(h, root, nodes, os)
    ensures EvalGroup(h, root, "any", nodes) ==
            Run(h, Ok(Some(Outcome(false, Some(Many(if Collected(os) == [] then [Text("unknownError")] else Collected(os)))))))
  {
    ScanAllFail(h, root, nodes, os, 0);
    assert os[..0] == [];
  }

  /** A group under any other mode returns nothing (`undefined`) when it does not throw. */
  lemma UnknownModeReturnsNothing(h: Heap, root: nat, mode: string, nodes: seq<Node>)
    requires mode != "any" && mode != "all" && mode != "optional"
    ensures EvalGroup(h, root, mode, nodes).out.Ok? ==> EvalGroup(h, root, mode, nodes).out.value.None?
  {
    ScanEnds(h, root, mode, nodes, 0, Initial, []);
  }

  /** A nested group with an unknown mode makes the enclosing pass throw (line 49 reads `undefined.message`). */
  lemma NestedUnknownModeThrows(h: Heap, root: nat, mode: string, inner: string, members: seq<Node>, rest: seq<Node>)
    requires inner != "any" && inner != "all" && inner != "optional"
    ensures EvalGroup(h, root, mode, [Group(inner, members)] + rest).out == Throws
  {
    UnknownModeReturnsNothing(h, root, inner, members);
    var g := EvalGroup(h, root, inner, members);
    assert ScanFrom(h, root, mode, [Group(inner, members)], 0, Initial, []) == Stopped(g.heap, Throws);
    StoppedPrefixDecides(h, root, mode, [Group(inner, members)], rest);
  }
}
