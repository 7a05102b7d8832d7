/**
  Rule trees the routers declare, run through the engine's specification
  on every context that holds the values a route reads.

  documents/routes.js:7-26: the `converter` rewrites the collection
  parameter `user` into the caller's uid, then `userHandler` checks it and
  expands the collection template.

  auth/routes.js:25-39: `userHandler` lets a request through when the uid
  parameter is the caller's own, or when the caller is an admin. The admin
  rule as declared compares against the literal `true`, which, being a
  non-string argument, is read as a path (the empty one) instead; see
  AdminFlagIgnored and CorrectedAdminDecides.
*/
module Routes {
  import opened JsBase
  import opened Values
  import opened JsHeap
  import opened ArgumentPaths
  import opened Template
  import opened Conditions
  import opened ConditionLaws

  /** `{ from: { from: a, find: b }, find: c }`, the descriptor of `a.b.c`. */
  function Path3(a: string, b: string, c: string): (d: Value)
    ensures Literal(d) && Segments(d) == [a, b, c]
  {
    var d := Desc(Desc(Str(a), Str(b)), Str(c));
    assert Literal(Str(a)) && Literal(Str(b)) && Literal(Str(c));
    assert Literal(Desc(Str(a), Str(b)));
    assert Segments(Desc(Str(a), Str(b))) == [] + [] + [a, b];
    assert Segments(d) == [a, b] + [] + [c];
    d
  }

  /** The path a literal descriptor names, whatever the context. */
  lemma PathOfLiteral(h: Heap, d: Value)
    requires d.Desc? && Literal(d)
    ensures PathOf(h, d) == Ok(Segments(d))
  {
    LiteralPathIgnoresContext(h, d, [], |h.Keys|);
    assert [] + Segments(d) == Segments(d);
  }

  /** A condition with every key absent. */
  const Blank := Condition(Undefined, Undefined, false, "", false, Undefined, "", Undefined, None, None)

  /** `res` is an object of the context, so properties can be assigned on it. */
  predicate HasRes(h: Heap, root: nat) {
    Walk(h, Obj(root), ["res"]).Ok? && Walk(h, Obj(root), ["res"]).value.Obj?
  }

  /** Assigning `res[k]` succeeds, reads back, and keeps `res` an object. */
  lemma WriteUnderRes(h: Heap, root: nat, k: string, v: Value)
    requires HasRes(h, root) && k != "res"
    ensures WritePath(h, root, ["res", k], v).Ok?
    ensures HasRes(WritePath(h, root, ["res", k], v).value, root)
    ensures ReadPath(WritePath(h, root, ["res", k], v).value, root, ["res", k]) == Ok(v)
  {
    assert Front(["res", k]) == ["res"];
    assert ["res"][..0] == [];
    KeyNotOnRoute(h, Obj(root), ["res"], Walk(h, Obj(root), ["res"]).value.addr, k);
    WriteThenRead(h, root, ["res", k], v);
    WriteKeepsOtherReads(h, root, ["res", k], v, ["res"]);
    ReadPathIsWalk(h, root, ["res"]);
    ReadPathIsWalk(WritePath(h, root, ["res", k], v).value, root, ["res"]);
  }

  /** Assigning `res.collection` leaves `res` an object and the caller's uid where it was. */
  lemma StoreCollection(h: Heap, root: nat, v: Value)
    requires HasRes(h, root)
    ensures WritePath(h, root, ["res", "collection"], v).Ok?
    ensures var h1 := WritePath(h, root, ["res", "collection"], v).value;
            HasRes(h1, root) &&
            ReadPath(h1, root, ["res", "collection"]) == Ok(v) &&
            ReadPath(h1, root, ["res", "user", "uid"]) == ReadPath(h, root, ["res", "user", "uid"])
  {
    WriteUnderRes(h, root, "collection", v);
    WriteKeepsOtherReads(h, root, ["res", "collection"], v, ["res", "user", "uid"]);
  }

  // ---------------------------------------------------------------------
  // documents/routes.js
  // ---------------------------------------------------------------------

  const DocumentsConverter := Blank.(
    firstArg := Path3("req", "params", "collection"),
    secondArg := Str("user"),
    equality := true,
    origin := Desc(Str("res"), Str("collection")),
    assign := Path3("res", "user", "uid"))

  /** The collection template of the documents route, written around its one `*`. */
  const CollectionTemplate := "users/" + "*" + "/collections/services/documents"

  const UserMatchesCollection := Blank.(
    firstArg := Desc(Str("res"), Str("collection")),
    secondArg := Path3("res", "user", "uid"),
    equality := true,
    template := CollectionTemplate,
    message := Some("This request does not match this user."))

  /** For a uid without `$`, the template names that caller's document collection. */
  lemma CollectionOfUid(uid: string)
    requires '$' !in uid
    ensures ReplaceStars(CollectionTemplate, uid) == "users/" + uid + "/collections/services/documents"
  {
    DollarFreeIsPlain(CollectionTemplate, uid);
    OneStar("users/", "/collections/services/documents", uid);
  }

  /** The converter's arguments resolve to 'user' twice, so its equality check passes. */
  lemma ConverterResolves(h: Heap, root: nat)
    requires ReadPath(h, root, ["req", "params", "collection"]) == Ok(Str("user"))
    ensures FirstPath(h, DocumentsConverter) == Ok(["req", "params", "collection"])
    ensures SecondPath(h, DocumentsConverter) == Ok(Some([]))
    ensures Deref(h, root, DocumentsConverter.firstArg, ["req", "params", "collection"]) == Ok(Str("user"))
    ensures Deref(h, root, DocumentsConverter.secondArg, []) == Ok(Str("user"))
    ensures Verdict(Initial, DocumentsConverter, Str("user"), Str("user")) == Passed
  {
    PathOfLiteral(h, DocumentsConverter.firstArg);
  }

  /** The converter's writes: the caller's uid, read through `assign`, lands at `res.collection`. */
  lemma ConverterWrites(h: Heap, root: nat, uid: string)
    requires ReadPath(h, root, ["res", "user", "uid"]) == Ok(Str(uid)) && uid != ""
    requires HasRes(h, root)
    ensures WritePath(h, root, ["res", "collection"], Str(uid)).Ok?
    ensures Effects(h, root, DocumentsConverter, Str("user"), ["req", "params", "collection"], Some([])) ==
            After(WritePath(h, root, ["res", "collection"], Str(uid)).value, false)
  {
    var c := DocumentsConverter;
    var target := ["res", "collection"];
    assert Literal(c.origin) && Segments(c.origin) == [] + [] + target;
    assert [] + [] + target == target;
    assert Origin(h, c, ["req", "params", "collection"], Some([])) == Ok(target);
    var templated := TemplateStep(After(h, false), root, c, Str("user"), target);
    assert templated == After(h, false);
    PathOfLiteral(h, c.assign);
    assert Resolve(h, root, c.assign) == Ok(Str(uid));
    WriteUnderRes(h, root, "collection", Str(uid));
    var h1 := WritePath(h, root, target, Str(uid)).value;
    assert AssignStep(templated, root, c, target) == After(h1, false);
  }

  /** The converter on the collection parameter 'user' passes and stores the caller's uid at `res.collection`. */
  lemma ConverterStoresUid(h: Heap, root: nat, uid: string)
    requires ReadPath(h, root, ["req", "params", "collection"]) == Ok(Str("user"))
    requires ReadPath(h, root, ["res", "user", "uid"]) == Ok(Str(uid)) && uid != ""
    requires HasRes(h, root)
    ensures WritePath(h, root, ["res", "collection"], Str(uid)).Ok?
    ensures ConditionStep(h, root, Initial, DocumentsConverter) ==
            Run(WritePath(h, root, ["res", "collection"], Str(uid)).value, Ok(Passed))
  {
    ConverterResolves(h, root);
    ConverterWrites(h, root, uid);
    ConditionStepResolved(h, root, Initial, DocumentsConverter, ["req", "params", "collection"], Some([]), Str("user"), Str("user"));
  }

  /** The check's arguments both resolve to the caller's uid, so it passes. */
  lemma CheckResolves(h: Heap, root: nat, uid: string)
    requires ReadPath(h, root, ["res", "collection"]) == Ok(Str(uid))
    requires ReadPath(h, root, ["res", "user", "uid"]) == Ok(Str(uid)) && uid != ""
    ensures FirstPath(h, UserMatchesCollection) == Ok(["res", "collection"])
    ensures SecondPath(h, UserMatchesCollection) == Ok(Some(["res", "user", "uid"]))
    ensures Deref(h, root, UserMatchesCollection.firstArg, ["res", "collection"]) == Ok(Str(uid))
    ensures Deref(h, root, UserMatchesCollection.secondArg, ["res", "user", "uid"]) == Ok(Str(uid))
    ensures Verdict(Initial, UserMatchesCollection, Str(uid), Str(uid)) == Passed
  {
    var c := UserMatchesCollection;
    assert Segments(c.firstArg) == [] + [] + ["res", "collection"];
    assert [] + [] + ["res", "collection"] == ["res", "collection"];
    PathOfLiteral(h, c.firstArg);
    PathOfLiteral(h, c.secondArg);
  }

  /** The check's write: the template, its `*` replaced by the uid, lands at `res.collection`. */
  lemma CheckWrites(h: Heap, root: nat, uid: string)
    requires HasRes(h, root)
    ensures WritePath(h, root, ["res", "collection"], Str(ReplaceStars(CollectionTemplate, uid))).Ok?
    ensures Effects(h, root, UserMatchesCollection, Str(uid), ["res", "collection"], Some(["res", "user", "uid"])) ==
            After(WritePath(h, root, ["res", "collection"], Str(ReplaceStars(CollectionTemplate, uid))).value, false)
  {
    var c := UserMatchesCollection;
    var target := ["res", "collection"];
    assert Origin(h, c, target, Some(["res", "user", "uid"])) == Ok(target);
    var text := ReplaceStars(CollectionTemplate, uid);
    assert ToStr(Str(uid)) == uid;
    WriteUnderRes(h, root, "collection", Str(text));
    var h1 := WritePath(h, root, target, Str(text)).value;
    var templated := TemplateStep(After(h, false), root, c, Str(uid), target);
    assert templated == After(h1, false);
    assert AssignStep(templated, root, c, target) == After(h1, false);
  }

  /** The check passes when `res.collection` holds the caller's uid, and expands the template there. */
  lemma CheckExpandsTemplate(h: Heap, root: nat, uid: string)
    requires ReadPath(h, root, ["res", "collection"]) == Ok(Str(uid))
    requires ReadPath(h, root, ["res", "user", "uid"]) == Ok(Str(uid)) && uid != ""
    requires HasRes(h, root)
    ensures WritePath(h, root, ["res", "collection"], Str(ReplaceStars(CollectionTemplate, uid))).Ok?
    ensures ConditionStep(h, root, Initial, UserMatchesCollection) ==
            Run(WritePath(h, root, ["res", "collection"], Str(ReplaceStars(CollectionTemplate, uid))).value, Ok(Passed))
  {
    CheckResolves(h, root, uid);
    CheckWrites(h, root, uid);
    ConditionStepResolved(h, root, Initial, UserMatchesCollection, ["res", "collection"], Some(["res", "user", "uid"]), Str(uid), Str(uid));
  }

  /** The `optional` group of the converter passes and leaves the uid at `res.collection`, the rest readable. */
  lemma ConverterGroup(h: Heap, root: nat, uid: string)
    requires ReadPath(h, root, ["req", "params", "collection"]) == Ok(Str("user"))
    requires ReadPath(h, root, ["res", "user", "uid"]) == Ok(Str(uid)) && uid != ""
    requires HasRes(h, root)
    ensures WritePath(h, root, ["res", "collection"], Str(uid)).Ok?
    ensures var h1 := WritePath(h, root, ["res", "collection"], Str(uid)).value;
            EvalGroup(h, root, "optional", [Cond(DocumentsConverter)]) == Run(h1, Ok(Some(Passed))) &&
            ReadPath(h1, root, ["res", "collection"]) == Ok(Str(uid)) &&
            ReadPath(h1, root, ["res", "user", "uid"]) == Ok(Str(uid)) &&
            HasRes(h1, root)
  {
    ConverterStoresUid(h, root, uid);
    var h1 := WritePath(h, root, ["res", "collection"], Str(uid)).value;
    SinglePass(h, root, "optional", DocumentsConverter, h1);
    StoreCollection(h, root, Str(uid));
  }

  /** The `all` group of the check passes and leaves the caller's document collection at `res.collection`. */
  lemma CheckGroup(h: Heap, root: nat, uid: string)
    requires ReadPath(h, root, ["res", "collection"]) == Ok(Str(uid))
    requires ReadPath(h, root, ["res", "user", "uid"]) == Ok(Str(uid)) && uid != "" && '$' !in uid
    requires HasRes(h, root)
    ensures var r := EvalGroup(h, root, "all", [Cond(UserMatchesCollection)]);
            r.out == Ok(Some(Passed)) &&
            ReadPath(r.heap, root, ["res", "collection"]) == Ok(Str("users/" + uid + "/collections/services/documents"))
  {
    CheckExpandsTemplate(h, root, uid);
    var text := ReplaceStars(CollectionTemplate, uid);
    var h1 := WritePath(h, root, ["res", "collection"], Str(text)).value;
    SinglePass(h, root, "all", UserMatchesCollection, h1);
    StoreCollection(h, root, Str(text));
    CollectionOfUid(uid);
  }

  /**
    The documents routers on the collection parameter 'user', for every
    caller uid without `$`: the converter passes and stores the uid at
    `res.collection`; the check then passes and replaces it with the
    caller's own document collection.
  */
  lemma DocumentsRouteRewritesCollection(h: Heap, root: nat, uid: string)
    requires ReadPath(h, root, ["req", "params", "collection"]) == Ok(Str("user"))
    requires ReadPath(h, root, ["res", "user", "uid"]) == Ok(Str(uid)) && uid != "" && '$' !in uid
    requires HasRes(h, root)
    ensures var conv := EvalGroup(h, root, "optional", [Cond(DocumentsConverter)]);
            conv.out == Ok(Some(Passed)) &&
            ReadPath(conv.heap, root, ["res", "collection"]) == Ok(Str(uid)) &&
            var check := EvalGroup(conv.heap, root, "all", [Cond(UserMatchesCollection)]);
            check.out == Ok(Some(Passed)) &&
            ReadPath(check.heap, root, ["res", "collection"]) == Ok(Str("users/" + uid + "/collections/services/documents"))
  {
    ConverterGroup(h, root, uid);
    CheckGroup(WritePath(h, root, ["res", "collection"], Str(uid)).value, root, uid);
  }

  // ---------------------------------------------------------------------
  // auth/routes.js
  // ---------------------------------------------------------------------

  const MismatchMessage := "This request does not match this user."
  const AdminMessage := "This user is not an admin."

  const UserMatchesParams := Blank.(
    firstArg := Path3("req", "params", "uid"),
    secondArg := Path3("res", "user", "uid"),
    equality := true,
    message := Some(MismatchMessage))

  /** The admin rule as declared: `secondArg: true`. */
  const UserIsAdmin := Blank.(
    firstArg := Path3("res", "user", "admin"),
    secondArg := Bool(true),
    equality := true,
    message := Some(AdminMessage))

  /**
    The admin rule as intended: `res.user.admin === true`. A runtime-type
    check for 'boolean' does it, since `false` already fails as falsy.
  */
  const UserIsAdminCorrected := Blank.(
    firstArg := Path3("res", "user", "admin"),
    typeCheck := "boolean",
    message := Some(AdminMessage))

  /** The reads a request to /users/:uid makes: the uid parameter, the caller's uid and admin flag. */
  predicate AuthReads(h: Heap, root: nat, param: string, uid: string, admin: Value) {
    ReadPath(h, root, ["req", "params", "uid"]) == Ok(Str(param)) &&
    ReadPath(h, root, ["res", "user", "uid"]) == Ok(Str(uid)) &&
    ReadPath(h, root, ["res", "user", "admin"]) == Ok(admin) &&
    param != "" && uid != ""
  }

  /** The uid rule passes exactly when the parameter is the caller's uid, and writes nothing. */
  lemma UidRuleDecides(h: Heap, root: nat, op: Outcome, param: string, uid: string, admin: Value)
    requires AuthReads(h, root, param, uid, admin)
    ensures ConditionStep(h, root, op, UserMatchesParams) ==
            Run(h, Ok(if param == uid then Passed else Failed(UserMatchesParams)))
  {
    var c := UserMatchesParams;
    PathOfLiteral(h, c.firstArg);
    PathOfLiteral(h, c.secondArg);
    assert Truthy(Str(param)) && Truthy(Str(uid)) && c.equality && !c.existence && c.typeCheck == "";
    assert Verdict(op, c, Str(param), Str(uid)) == if param == uid then Passed else Failed(c);
    CheckOnly(h, root, op, c, ["req", "params", "uid"], Some(["res", "user", "uid"]), Str(param), Str(uid));
  }

  /**
    As declared, the admin rule never passes on its own: the literal `true`
    is read as the path [] (the context's own `undefined` property), the
    equality check is skipped, and a truthy flag hands on the operation
    the previous member left.
  */
  lemma AdminRuleAsWritten(h: Heap, root: nat, op: Outcome, admin: Value)
    requires ReadPath(h, root, ["res", "user", "admin"]) == Ok(admin)
    requires Field(h, root, "undefined") == Undefined
    ensures ConditionStep(h, root, op, UserIsAdmin) ==
            Run(h, Ok(if Truthy(admin) then op else Failed(UserIsAdmin)))
  {
    var c := UserIsAdmin;
    var firstPath := ["res", "user", "admin"];
    PathOfLiteral(h, c.firstArg);
    assert FirstPath(h, c) == Ok(firstPath);
    assert SecondPath(h, c) == Ok(Some([]));
    assert Deref(h, root, c.firstArg, firstPath) == Ok(admin);
    assert ReadPath(h, root, []) == Ok(Undefined);
    assert Deref(h, root, c.secondArg, []) == Ok(Undefined);
    assert Verdict(op, c, admin, Undefined) == if Truthy(admin) then op else Failed(c);
    CheckOnly(h, root, op, c, firstPath, Some([]), admin, Undefined);
  }

  /**
    So an admin asking for someone else's uid is refused, with the uid
    rule's message twice.
  */
  lemma AdminFlagIgnored(h: Heap, root: nat, param: string, uid: string)
    requires AuthReads(h, root, param, uid, Bool(true)) && param != uid
    requires Field(h, root, "undefined") == Undefined
    ensures EvalGroup(h, root, "any", [Cond(UserMatchesParams), Cond(UserIsAdmin)]) ==
            Run(h, Ok(Some(Outcome(false, Some(Many([Text(MismatchMessage), Text(MismatchMessage)]))))))
  {
    var failed := Failed(UserMatchesParams);
    assert failed == Outcome(false, Some(Text(MismatchMessage)));
    UidRuleDecides(h, root, Initial, param, uid, Bool(true));
    AdminRuleAsWritten(h, root, failed, Bool(true));
    AnyBothFail(h, root, UserMatchesParams, UserIsAdmin, MismatchMessage, MismatchMessage);
  }

  /** The corrected admin rule passes exactly when `res.user.admin` is `true`, and writes nothing. */
  lemma CorrectedAdminDecides(h: Heap, root: nat, op: Outcome, admin: Value)
    requires ReadPath(h, root, ["res", "user", "admin"]) == Ok(admin)
    ensures ConditionStep(h, root, op, UserIsAdminCorrected) ==
            Run(h, Ok(if admin == Bool(true) then Passed else Failed(UserIsAdminCorrected)))
  {
    var c := UserIsAdminCorrected;
    var firstPath := ["res", "user", "admin"];
    PathOfLiteral(h, c.firstArg);
    assert FirstPath(h, c) == Ok(firstPath);
    assert SecondPath(h, c) == Ok(None);
    assert Deref(h, root, c.firstArg, firstPath) == Ok(admin);
    assert Deref(h, root, c.secondArg, []) == Ok(Undefined);
    assert Verdict(op, c, admin, Undefined) == if admin == Bool(true) then Passed else Failed(c);
    CheckOnly(h, root, op, c, firstPath, None, admin, Undefined);
  }

  /**
    With the corrected rule, a caller asking for someone else's uid is let
    through exactly when an admin; otherwise refused with both messages.
  */
  lemma CorrectedHandlerOtherUid(h: Heap, root: nat, param: string, uid: string, admin: Value)
    requires AuthReads(h, root, param, uid, admin) && param != uid
    ensures EvalGroup(h, root, "any", [Cond(UserMatchesParams), Cond(UserIsAdminCorrected)]) ==
            Run(h, Ok(Some(if admin == Bool(true) then Passed
                           else Outcome(false, Some(Many([Text(MismatchMessage), Text(AdminMessage)]))))))
  {
    var failed := Failed(UserMatchesParams);
    assert failed == Outcome(false, Some(Text(MismatchMessage)));
    UidRuleDecides(h, root, Initial, param, uid, admin);
    CorrectedAdminDecides(h, root, failed, admin);
    if admin == Bool(true) {
      AnyOfTwo(h, root, UserMatchesParams, UserIsAdminCorrected, failed, Passed);
    } else {
      assert Failed(UserIsAdminCorrected) == Outcome(false, Some(Text(AdminMessage)));
      AnyBothFail(h, root, UserMatchesParams, UserIsAdminCorrected, MismatchMessage, AdminMessage);
    }
  }

  /**
    With the corrected rule the handler does what the route intends: an
    admin is let through for any uid parameter, and a caller who is no
    admin only for their own uid.
  */
  lemma CorrectedHandlerAdmitsAdmins(h: Heap, root: nat, param: string, uid: string, admin: Value)
    requires AuthReads(h, root, param, uid, admin)
    ensures var r := EvalGroup(h, root, "any", [Cond(UserMatchesParams), Cond(UserIsAdminCorrected)]);
            r.heap == h && r.out.Ok? && r.out.value.Some? &&
            (r.out.value.value.status <==> param == uid || admin == Bool(true))
  {
    if param == uid {
      UidRuleDecides(h, root, Initial, param, uid, admin);
      var nodes := [Cond(UserMatchesParams), Cond(UserIsAdminCorrected)];
      ScanCondition(h, root, "any", nodes, 0, Initial, [], UserMatchesParams, h, Passed);
    } else {
      CorrectedHandlerOtherUid(h, root, param, uid, admin);
    }
  }
}
