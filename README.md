# idyle/api: the condition engine and the page converter

This project models the two pieces of the idyle API server that hold its logic.

**The condition engine** (`utilities/operations.js`). Every router guards its handlers with rule trees: plain objects such as `{ firstArg, secondArg, equality, template, assign, origin, prefilter, message }`, grouped under a mode `any`, `all` or `optional`. `parseConditions` evaluates a group against the request context `{ req, res }`. For each rule it:

- resolves its argument descriptors (`{ from, find }`, nested) to paths with `convertArgumentToPath`;
- reads those paths with `convertPathToString`;
- reaches a verdict;
- on a pass, writes into the context in place with `setObjectFromPath`.

The group stops at the first pass (`any`) or the first failure (`all`). Its result collects the failure messages.

**The page converter** (`editor/operations.js`). A page stored as a JSON component tree is rendered to HTML in three steps:

- `convertJSONtoCSS` turns a style object into CSS declarations.
- `convertJSONtoHimalayaJSON` turns the component tree into the node tree that the himalaya library prints.
- `convertPageToHtml` builds the `<head>` from the page's metadata and wraps everything in a fixed document.

## How it is modelled

- **The request context is a heap** (`JsHeap.Heap`: object addresses to property maps). This keeps what the source relies on:
  - writes happen in place;
  - a prefilter object written to `res.filter` is the rule's own object, which the rule then keeps updating;
  - a write can break a later read through a cycle.
- **The engine is a class.** `Engine.Context` holds the heap, and its methods are the loops and assignments of the source. Each method is proved equal to a specification function (`Conditions.EvalGroup`, `JsHeap.WritePath`, …). The properties are lemmas about those functions (`ConditionLaws`, `JsHeap`).
- **Throwing is an outcome.** A `TypeError` is modelled as `Eval.Throws`; the `Run` that holds it also carries the heap as it was at the throw. The model does not use preconditions to keep inputs away from it. This covers:
  - reading through `undefined`/`null`;
  - assigning on a primitive;
  - destructuring `undefined`;
  - `Object.values(null)`.
- **Editor pages are values.** They are a pure `PageJson.Json` tree, because the editor mutates nothing that anything else shares. The loops of the source stay loops:
  - the CSS declaration loop is `Css.AppendDeclarations`;
  - the attribute push loop is `Himalaya.BuildAttributes`;
  - the head appends are `Page.BuildHead`.
- **The routers' rule trees are checked too.** Two of them are run through the engine's specification in `Routes`.

Path reads throw a `TypeError` when an intermediate value is `undefined` or `null`; the model reports this as `Throws`.

## Model

| member | source | states |
|---|---|---|
| JsBase.NatToDecimal | editor/operations.js:5 | the decimal key of an array index: digits only, no leading zero, and its value is the index |
| JsBase.IntToDecimal | editor/operations.js:10 | the text of an integer starts with '-' exactly when it is negative |
| Values.TypeOf | utilities/operations.js:36 | `typeof` gives 'object', 'string', 'undefined' and 'boolean' exactly for objects/null, strings, undefined and booleans |
| JsHeap.Update | utilities/operations.js:4 | an assignment changes that one property of that one object and nothing else |
| JsHeap.Put | utilities/operations.js:4 | assigning a property succeeds exactly on an object (a primitive target throws) |
| JsHeap.WritePath | utilities/operations.js:1-6 | setObjectFromPath succeeds exactly when the walk to the parent succeeds and ends on an object |
| JsHeap.WalkFrame | utilities/operations.js:3 | a walk that never reads the written property sees the same values after the write |
| JsHeap.WalkStaysThrown | utilities/operations.js:3 | once the walk throws on a prefix, the whole walk throws |
| JsHeap.ReadPathIsWalk | utilities/operations.js:8-12 | convertPathToString reads exactly the values its walk over the whole path reaches |
| JsHeap.WriteChangesOneProperty | utilities/operations.js:1-6 | a successful write sets the last key on the parent object to the value and leaves every other property of every object unchanged |
| JsHeap.KeyNotOnRoute | utilities/operations.js:3 | a walk whose segments never name a key never reads that key |
| JsHeap.WriteKeepsOtherReads | utilities/operations.js:1-12 | reading a path that does not mention the written key gives what it gave before the write |
| JsHeap.WriteThenRead | utilities/operations.js:1-12 | reading a path right after writing it gives the written value, when the route does not run through the replaced property |
| JsHeap.WriteTwice | utilities/operations.js:1-6 | a second write to the same path replaces the first: the heap is as after the second write alone |
| JsHeap.RoundTripFailsOnCycle | utilities/operations.js:1-12 | the round trip fails without that condition: writing [a, k, k] over a self-reference then reads undefined |
| ArgumentPaths.PathOf | utilities/operations.js:14-21 | destructuring undefined or null throws; a string, number or boolean argument gives the empty path |
| ArgumentPaths.LiteralPathIgnoresContext | utilities/operations.js:14-21 | a descriptor built only from strings and nested descriptors gives the same path in every context: its segments appended to the accumulator |
| ArgumentPaths.DescendLiteral | utilities/operations.js:16-17 | descending into a nested literal descriptor appends its segments |
| ArgumentPaths.LeftNestedReadsInOrder | utilities/operations.js:14-21 | a descriptor nested only on the `from` side gives its names in reading order |
| ArgumentPaths.RightNestedIsReordered | utilities/operations.js:16-19 | nesting on the `find` side puts the nested names first: `{from:'req', find:{from:'params', find:'uid'}}` gives params, uid, req |
| ArgumentPaths.ReqParamsUid | utilities/operations.js:14-21 | example: the routes' descriptor of `req.params.uid` gives the path req, params, uid |
| Template.ExpandDollarFree | utilities/operations.js:42 | a replacement without '$' is inserted as written |
| Template.ReplaceFromDollarFree | utilities/operations.js:42 | with such a replacement, `replace(/\*/g, r)` is the plain star-by-star substitution |
| Template.DollarFreeIsPlain | utilities/operations.js:42 | the same, for the whole template |
| Template.PlainReplaceShape | utilities/operations.js:42 | no '*' survives a star-free replacement, and a template without stars is unchanged |
| Template.PlainReplaceLength | utilities/operations.js:42 | each star grows the template by the replacement's length minus one |
| Template.PlainReplaceConcat | utilities/operations.js:42 | substitution distributes over concatenation of templates |
| Template.PlainReplaceStarFree | utilities/operations.js:42 | a star-free template is its own substitution |
| Template.OneStar | utilities/operations.js:42 | a template with one star becomes the text before it, the replacement, and the text after it |
| Template.DollarPatterns | utilities/operations.js:42 | examples: `$&`, `$$` and the other replacement patterns act as `String.prototype.replace` defines them; `$1` stays literal (no capture groups) |
| Conditions.Resolve | utilities/operations.js:33-34 | a falsy or string argument is kept as is; a literal descriptor is replaced by the value at its path |
| Conditions.Verdict | utilities/operations.js:35-38 | the verdict of lines 35-38 in their order of precedence: falsy firstArg fails, existence passes, a type check compares `typeof`, equality compares, otherwise the previous operation is carried |
| Conditions.Origin | utilities/operations.js:32-41 | the write target: a literal `origin` descriptor's path; the secondArg path for `origin: 'secondArg'` when there is one; the firstArg path for a falsy origin, any other string, or `'secondArg'` without a secondArg |
| Conditions.Write | utilities/operations.js:42-47 | a failed write leaves the heap; a successful one is setObjectFromPath |
| Conditions.PrefilterSlot | utilities/operations.js:45-46 | a string slot is left alone; a non-string slot, when nothing throws, holds the value its path names; no other property of any object changes |
| Conditions.Finish | utilities/operations.js:52-55 | a finished group passes under `all` and `optional`; under `any` it fails with the collected messages, or exactly `['unknownError']` when none was collected; under another mode it returns nothing |
| ConditionLaws.ConditionStepLaws | utilities/operations.js:28-47 | a rule's result is a pass, its own failure or the carried operation; a failing or write-free rule leaves the context unchanged; a falsy firstArg fails and writes nothing |
| ConditionLaws.CheckOnly | utilities/operations.js:33-38 | a rule without template, assign or prefilter gives its verdict and writes nothing |
| ConditionLaws.CarriedPassWrites | utilities/operations.js:35-47 | a rule whose checks do not fire and whose resolved firstArg is truthy hands on the previous operation: after a failure it returns that failure and writes nothing, after a pass it passes with its writes |
| ConditionLaws.AssignOverwritesTemplate | utilities/operations.js:42-44 | with both template and assign, the assigned value is what the path holds afterwards |
| ConditionLaws.FilterRouteIntact | utilities/operations.js:47 | the walk to `res.filter` never reads `filter`, so storing the prefilter reads back |
| ConditionLaws.PrefilterStored | utilities/operations.js:45-47 | after a pass, `res.filter` is the rule's own prefilter object; string `lookup`/`match` are kept, and a non-string `lookup` or `match` holds the value its path names (`match` read after `lookup` was written) |
| ConditionLaws.PrefilterSettles | utilities/operations.js:45-47 | a prefilter whose slots are strings is stored unchanged |
| ConditionLaws.SinglePass | utilities/operations.js:25-55 | an `all` or `optional` group of one passing rule passes with that rule's writes |
| ConditionLaws.AnyOfTwo | utilities/operations.js:25-53 | an `any` group whose first rule fails without writing is decided by the second rule |
| ConditionLaws.AnyBothFail | utilities/operations.js:49-53 | when both rules of an `any` group fail, the group fails with both messages in order |
| ConditionLaws.ScanShift | utilities/operations.js:25-51 | scanning a suffix is scanning from the same position of the whole list |
| ConditionLaws.ScanAppend | utilities/operations.js:25-51 | scanning `p + rest` is scanning `p`, then `rest` unless the scan already stopped |
| ConditionLaws.StoppedPrefixDecides | utilities/operations.js:50 | members after the one that stops the group are never evaluated |
| ConditionLaws.AllStopsAtFailure | utilities/operations.js:50 | an `all` group whose first rule fails stops there with that rule's result |
| ConditionLaws.AllStopsAtFailingMember | utilities/operations.js:25-50 | in an `all` group, the first failing rule at any position, reached after the earlier members ran through, is the group's result with the context it leaves; later members never run |
| ConditionLaws.AnyStopsAtPass | utilities/operations.js:50 | an `any` group whose first rule passes stops there with `{ status: true }` |
| ConditionLaws.AnyStopsAtPassingMember | utilities/operations.js:25-50 | in an `any` group, the first passing rule at any position, reached after the earlier members ran through, is the group's result with the context it leaves; later members never run |
| ConditionLaws.ScanEnds | utilities/operations.js:25-51 | a scan stops only on a pass under `any` or a failure under `all`, and the messages it collects are all truthy |
| ConditionLaws.OptionalAlwaysPasses | utilities/operations.js:55 | an `optional` group passes whenever it does not throw |
| ConditionLaws.AllPassIsCompletion | utilities/operations.js:54 | an `all` group passes only by running every member |
| ConditionLaws.AnyFailureCollects | utilities/operations.js:49-53 | an `any` group fails only after every member ran, with exactly the truthy messages its scan collected, or `['unknownError']` when there were none |
| ConditionLaws.AnyAllFail | utilities/operations.js:25-53 | an `any` group of any number of rules that each fail without writing fails with their truthy messages in member order, or `['unknownError']` when none has one, and leaves the context unchanged |
| ConditionLaws.UnknownModeReturnsNothing | utilities/operations.js:53-56 | a group under any other mode returns undefined |
| ConditionLaws.NestedUnknownModeThrows | utilities/operations.js:26-49 | a nested group with an unknown mode, whatever its members, makes the enclosing group throw, because line 49 reads a property of undefined |
| Engine.Context.Parent | utilities/operations.js:3 | the loop over all but the last segment reaches the walk's value |
| Engine.Context.ConvertPathToString | utilities/operations.js:8-12 | the read is the value at the path (or a throw) |
| Engine.Context.SetObjectFromPath | utilities/operations.js:1-6 | the context becomes the specified write; a throw leaves it unchanged |
| Engine.Context.ResolveSlot | utilities/operations.js:45-46 | one prefilter slot is updated in place as specified |
| Engine.Context.WriteTemplate | utilities/operations.js:42 | the template write of a pass, as specified |
| Engine.Context.WriteAssign | utilities/operations.js:43-44 | the assign write of a pass, as specified |
| Engine.Context.StorePrefilter | utilities/operations.js:45-47 | the prefilter slots, then the store at `res.filter`, as specified |
| Engine.Context.ApplyEffects | utilities/operations.js:39-47 | every write of a passing rule, in source order |
| Engine.Context.ApplyCondition | utilities/operations.js:28-47 | one rule's outcome and new context equal the rule's specification |
| Engine.Context.ParseConditions | utilities/operations.js:23-56 | the group's result and final context equal the group's specification |
| Routes.Path3 | documents/routes.js:10 | a two-level descriptor is literal and names its three segments |
| Routes.PathOfLiteral | documents/routes.js:10-14 | a literal descriptor resolves to its own segments |
| Routes.WriteUnderRes | documents/routes.js:13 | assigning a property of `res` succeeds, reads back and keeps `res` an object |
| Routes.StoreCollection | documents/routes.js:13-14 | storing `res.collection` keeps the caller's uid readable |
| Routes.CollectionOfUid | documents/routes.js:22 | for a uid without '$', the template names that caller's document collection |
| Routes.ConverterResolves | documents/routes.js:7-16 | the converter's paths and values resolve, and it passes when the parameter is 'user' |
| Routes.ConverterWrites | documents/routes.js:13-14 | its write puts the caller's uid at `res.collection` |
| Routes.ConverterStoresUid | documents/routes.js:7-16 | the converter rule passes and writes the uid |
| Routes.CheckResolves | documents/routes.js:18-24 | the check's paths and values resolve, and it passes when `res.collection` is the caller's uid |
| Routes.CheckWrites | documents/routes.js:22 | its template write puts the expanded template at `res.collection` |
| Routes.CheckExpandsTemplate | documents/routes.js:18-24 | the check rule passes and writes the expanded template |
| Routes.ConverterGroup | documents/routes.js:7-16 | the `optional` group passes and leaves the uid at `res.collection` |
| Routes.CheckGroup | documents/routes.js:18-26 | the `all` group passes and leaves `users/<uid>/collections/services/documents` at `res.collection` |
| Routes.DocumentsRouteRewritesCollection | documents/routes.js:7-31 | for every caller uid without '$', a request for the collection 'user' ends with the caller's own document collection at `res.collection` |
| Routes.UidRuleDecides | auth/routes.js:25-30 | the uid rule passes exactly when the parameter equals the caller's uid, and writes nothing |
| Routes.AdminRuleAsWritten | auth/routes.js:32-37 | as declared, the admin rule never passes by itself: a truthy flag carries the previous operation and a falsy one fails |
| Routes.AdminFlagIgnored | auth/routes.js:32-39 | as declared, an admin asking for another uid is refused, with the uid rule's message twice |
| Routes.CorrectedAdminDecides | auth/routes.js:32-37 | the corrected admin rule passes exactly when `res.user.admin` is `true` |
| Routes.CorrectedHandlerOtherUid | auth/routes.js:39 | with the correction, another uid is admitted exactly for an admin; otherwise the request is refused with both messages |
| Routes.CorrectedHandlerAdmitsAdmins | auth/routes.js:39 | with the correction, the handler admits exactly the owner of the uid and admins, and writes nothing |
| PageJson.Find | editor/operations.js:18-20 | the index of the first entry with the key, or none when no entry has it |
| PageJson.Prop | editor/operations.js:18-20 | a property read is undefined on non-objects and for absent keys |
| PageJson.Entries | editor/operations.js:5 | `Object.entries` throws exactly on undefined and null, gives an object's own entries, and gives nothing for numbers and booleans |
| Css.ToLower | editor/operations.js:8 | lower-casing leaves no capital and keeps every other character |
| Css.Lower | editor/operations.js:8 | lower-casing keeps the length |
| Css.Pieces | editor/operations.js:8 | the split before capitals yields at least one piece |
| Css.JoinPieces | editor/operations.js:8 | joining the pieces with '-' puts a dash before each non-initial capital |
| Css.LowerConcat | editor/operations.js:8 | lower-casing distributes over concatenation |
| Css.KebabMatchesReference | editor/operations.js:8 | split-join-lowercase equals the character-wise reference: lower-case each letter and put a dash before each capital after the first character |
| Css.KebabRestShape | editor/operations.js:8 | each capital adds one character, and the result has no capitals |
| Css.KebabShape | editor/operations.js:8 | the converted key has no capitals, is one longer per non-initial capital, and is empty exactly when the key is |
| Css.KebabEmpty | editor/operations.js:9 | the converted key is empty exactly when the key is |
| Css.CamelizeKebabRest | editor/operations.js:8 | camel-casing undoes the conversion of a tail without dashes |
| Css.KebabRoundTrip | editor/operations.js:8 | for a key without dashes and without a leading capital, camel-casing the converted key gives the key back |
| Css.KebabRestConcat | editor/operations.js:8 | the conversion distributes over concatenation |
| Css.KebabPlain | editor/operations.js:8 | a key without capitals is unchanged |
| Css.KebabOneCapital | editor/operations.js:8 | one inner capital becomes a dash and its lower-case letter |
| Css.KebabBackgroundColor | editor/operations.js:8 | 'backgroundColor' becomes 'background-color' |
| Css.KebabLeadingCapital | editor/operations.js:8 | a leading capital gets no dash: 'Color' becomes 'color' |
| Css.Piece | editor/operations.js:9-11 | an entry contributes nothing exactly when its converted key is empty and its value falsy |
| Css.CssOf | editor/operations.js:3-14 | the conversion throws exactly on null; undefined (the default `{}`), numbers, booleans and the empty object give '' |
| Css.ConvertJsonToCss | editor/operations.js:3-14 | the method returns the specified CSS text |
| Css.AppendDeclarations | editor/operations.js:4-12 | the loop builds the specified CSS text |
| Css.Declarations | editor/operations.js:10 | one declaration per entry |
| Css.CssUpToKept | editor/operations.js:6-12 | when every entry is kept, the text so far is the declarations joined by spaces, plus a space when entries remain |
| Css.CssAllKeptIsJoin | editor/operations.js:3-14 | when every entry is kept, the CSS is the declarations joined by single spaces |
| Css.CssEmpty | editor/operations.js:3-14 | no entries give '' |
| Css.CssTrailingSpace | editor/operations.js:9-11 | a skipped last entry leaves the separator after the previous declaration |
| Himalaya.AttributeOf | editor/operations.js:25-31 | a reserved key and an empty array or value-less object add nothing; a null value throws; `className` becomes `class` with the same value; `style` becomes the CSS text convertJSONtoCSS gives for it; any other key is kept with its value |
| Himalaya.ThrowPersists | editor/operations.js:24-32 | once an entry throws, the whole attribute loop throws |
| Himalaya.BuildAttributes | editor/operations.js:23-32 | the push loop builds the specified attributes |
| Himalaya.ConvertJsonToHimalaya | editor/operations.js:16-37 | the method returns the specified node |
| HimalayaLaws.AttributesUpToThrows | editor/operations.js:24-32 | the attributes of a prefix throw exactly when it holds a null, non-reserved entry |
| HimalayaLaws.AttributesThrow | editor/operations.js:24-32 | the attributes throw exactly when some non-reserved entry is null |
| HimalayaLaws.AttributesUpToAppend | editor/operations.js:24-32 | the attributes of `a + b`'s prefix are those of `a` followed by those of the prefix of `b` |
| HimalayaLaws.PrefixAgrees | editor/operations.js:24-32 | the attributes of a prefix depend only on that prefix |
| HimalayaLaws.AttributesAppend | editor/operations.js:24-32 | the loop keeps entry order: the attributes of `a + b` are those of `a` followed by those of `b` |
| HimalayaLaws.AttributesSingle | editor/operations.js:24-32 | one entry gives at most the one attribute it converts to |
| HimalayaLaws.AttributesUpToClean | editor/operations.js:25-28 | no attribute is named id, children, component or className |
| HimalayaLaws.ConvertedIsClean | editor/operations.js:16-37 | at every depth of a converted tree, no attribute is named id, children, component or className |
| HimalayaLaws.MapChildrenClean | editor/operations.js:20 | the converted children of a div are clean |
| HimalayaLaws.MapNodesClean | editor/operations.js:20 | each mapped child is clean |
| HimalayaLaws.MapNodesPointwise | editor/operations.js:20 | the map succeeds exactly when every element converts, and gives one node per element in order |
| HimalayaLaws.DivChildren | editor/operations.js:20 | a div whose children are an array gets one converted node per element, in order |
| HimalayaLaws.DivWithoutChildren | editor/operations.js:20 | a div without children, or with null children, gets undefined children |
| HimalayaLaws.TagIsComponent | editor/operations.js:35 | a converted node is an element whose `tagName` is the component's `component` entry |
| HimalayaLaws.TextChild | editor/operations.js:21 | any other component gets one text node holding its children, or '' when they are falsy |
| HimalayaLaws.MapChildrenThrows | editor/operations.js:20 | a div's children throw exactly when they are neither nullish nor an array, or when some element throws |
| HimalayaLaws.ConvertThrows | editor/operations.js:16-37 | the conversion throws exactly for an undefined or null component, for children that throw, or for a null entry that is converted |
| Page.MarkupAppend | editor/operations.js:51-54 | appending a tag appends its markup |
| Page.MarkupPair | editor/operations.js:46-51 | two tags render as their markups in order |
| Page.Toggle | editor/operations.js:46 | `metadata?.toggle ?? true` is truthy exactly when `toggle` is undefined, null or truthy: `false`, `0` and `''` switch it off |
| Page.IconOf | editor/operations.js:47 | the icon is always truthy: the favicon when truthy, else the default |
| Page.ConvertPageToHtml | editor/operations.js:39-73 | the method returns the specified page |
| Page.RenderPage | editor/operations.js:44-68 | the stringified tree and the head give the specified document |
| Page.BuildHead | editor/operations.js:46-54 | the appends build the specified head |
| PageLaws.HeadIsMarkupOfTags | editor/operations.js:46-54 | the head text is the markup of its tags, in order |
| PageLaws.HeadStartsWithTitleAndIcon | editor/operations.js:46-51 | the title comes first and the icon second, with at most three tags after them |
| PageLaws.DefaultFavicon | editor/operations.js:47 | without a truthy favicon the icon is https://cdn.idyle.app/assets/idyle.ico |
| PageLaws.StylesheetIff | editor/operations.js:52 | the stylesheet link is present exactly when `css` is truthy |
| PageLaws.TailwindIff | editor/operations.js:46-53 | Tailwind is loaded exactly when `toggle` is missing, null or truthy |
| PageLaws.FontIff | editor/operations.js:54 | the font rule is present exactly when `font` is truthy |
| PageLaws.NoMetadata | editor/operations.js:46-54 | a page without metadata gets the title, the default icon and Tailwind, and nothing else |
| PageLaws.FalseIff | editor/operations.js:40-45 | the result is `false` exactly for falsy data, a conversion that throws, or an empty stringified tree |

## Left out

- The Express routers, the handlers (`paramHandler`, `authHandler`, …) and the cloud operations are not modelled. `paramHandler`'s mapping of results to HTTP responses is not part of this model.
- `console.error` and the exception object in the `catch` of `convertPageToHtml` are left out. The `catch` is modelled as the `false` result.
- himalaya's `stringify` is a function parameter. The model assumes it never throws.
- Numbers are unbounded integers. Floating point, `NaN` and number formatting beyond integers are not modelled.
- Strings are sequences of characters. UTF-16 surrogate pairs are not modelled. Case mapping covers ASCII letters only.
- Arrays are not heap objects in the context model. A rule argument or context value that is an array is not modelled.
- Symbols, getters, prototypes and inherited properties are left out. A property read on a primitive gives `undefined`, including `length` and indices of strings.
- `Object.entries` lists entries in the stored order. JavaScript's integer-keys-first ordering and duplicate keys are not modelled.
- Descriptor literals (`{ from, find }` in rule trees) are immutable values, compared structurally.
- Assigning into a descriptor literal is reported as a throw. In JavaScript it would mutate the rule object.
- ArgumentPaths.PathOf: descending into heap objects is bounded by fuel, the number of objects in the heap. A cyclic descriptor through the heap would recurse forever in JavaScript (a stack overflow); here it throws once the fuel runs out. An object address that is not in the heap, which no JavaScript state has, still uses up fuel and reads as an empty object.
- A rule's `template` and `message` are strings or absent. Other values are not modelled.
- The fixed template text of the HTML document, including its whitespace, is written out. No lemma is stated about where the head sits inside it.
- Page.ConvertPageToHtml: `if (!converted)` is not modelled as a branch, because the conversion returns an object, which is never falsy.
- HimalayaLaws: the element has no `type: 'element'` field. The source does not set one, and the node kind is the datatype's constructor.

## Findings

| source | as written | input that shows it | evidently intended | confidence | as-written member | corrected member |
|---|---|---|---|---|---|---|
| auth/routes.js:32-39 | `secondArg: true` is not a string, so line 31 turns it into a path (the empty one), line 34 reads the context's `undefined` property, and the equality check of line 35 is skipped. A truthy admin flag then only carries the operation of the uid rule. | `req.params.uid = 'b'`, `res.user = { uid: 'a', admin: true }`: the `any` group fails with the uid message twice | admit admins for any uid: `res.user.admin === true` passes the rule | not executed | Routes.AdminFlagIgnored | Routes.CorrectedHandlerAdmitsAdmins |
