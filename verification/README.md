# A Dafny model of the HTML template directive engine

The repository renders HTML in the browser. Elements carry `template-*`
attributes (directives). A walker applies them against the current data:
it evaluates expressions, interpolates `{{expression}}` markers in text and
attributes, rebinds data, repeats an element once per item, and copies a
`<template>`'s content into an element (fill, append or replace).

This project models two versions of that walker as pure functions over an
immutable element tree:

- the engine of `test/htdocs/modules/template.js` (modules `Js`, `Dom`,
  `Interpolation`, `Directives`, `Engine`, with properties in
  `EngineFacts`);
- the earlier draft in the root `template.js` (modules `Draft`, with
  properties in `DraftFacts`).

The environment is a parameter, `Directives.Host`:

- expression evaluation, where failure reads as null;
- `fetch` of JSON and of markup, where a response that is not ok reads as
  null or an empty template;
- `document.getElementById`, as a map.

Running prolog and epilog code is recorded in a trace (`Exec`) and has no
other effect. What a promise resolves to is part of each result:

- `Engine.Outcome`: kept element, fragment, removed, replaced or rejected.
  A fragment's nodes take the element's place; when the element has a
  parent, `after()` moves them out, and the fragment the promise resolves
  to is left empty;
- `Draft.Resolution` for the draft.

The `Promise.all` joins keep the results in index order. The source starts
every sibling, clone and template root before any of them finishes; the
model takes them one after another in index order, which is one of the
interleavings the source allows (see "Concurrency of siblings" below).

Where the repository's own description and the code differ, the model
follows the code:

- An unknown `template` id gives no template. The element is then walked as
  if it had none, and `template-src` is not tried (lines 222-235 of the
  engine).
- `template-mode` is read, never removed, and its text is interpolated
  against itself (line 272). It therefore survives processing.

## Model

Paths are relative to the repository root. `modules/template.js` stands for
`test/htdocs/modules/template.js`.

| member | source | states |
|---|---|---|
| Dom.Consume | test/htdocs/modules/template.js:56-60 | `consumeAttribute` returns the previous value, or none when the attribute was absent. Afterwards the attribute is absent and every other attribute, the tag and the children are unchanged. |
| Dom.ConsumeRestore | test/htdocs/modules/template.js:56-60 | Writing the returned value back gives the original element exactly, so nothing but the one attribute is lost. |
| Dom.ConsumeTwice | test/htdocs/modules/template.js:56-60 | A second consume of the same attribute finds nothing and changes nothing. |
| Dom.ElementChildren | test/htdocs/modules/template.js:616 | `content.children` has exactly the element nodes of a child list, and never more items than the list. |
| Dom.ElementChildrenConcat | test/htdocs/modules/template.js:616 | The element children of two runs of nodes are those of the first run followed by those of the second, so document order is kept. |
| Dom.ElementChildrenOne | test/htdocs/modules/template.js:616 | One node contributes itself when it is an element, and nothing otherwise. |
| Dom.TextContent | template.js:101-107 | Assigning `innerText` leaves only text nodes: none for the empty string, at most one otherwise, and the text content reads back as the assigned string. |
| Js.JsonScalar | template.js:103-105 | `JSON.stringify` of a boolean gives its text. A number gives its text when finite and "null" exactly for NaN and the infinities. It throws exactly for a BigInt. |
| Js.Truthy | test/htdocs/modules/template.js:385 | Truthiness: the falsy values are exactly undefined, null, false, 0, NaN, the BigInt 0 and the empty string. |
| Js.StringOfSingleton | test/htdocs/modules/template.js:171 | `String` of a one-item array is the item's text, or empty for null and undefined. |
| Js.StringOfArrayConcat | test/htdocs/modules/template.js:171 | `String` of two joined non-empty arrays is the first one's text, a comma, and the second one's text. |
| Js.Property | template.js:45 | `data[name]` throws exactly when data is null or undefined. An object answers its own property or undefined; an array answers its length and the item at a canonical index. |
| Js.ArrayItemsByName | template.js:97 | For a canonical index name, an array gives the item at that position, or undefined past its end. |
| Js.ArrayIndex | template.js:97 | A name reads as an array index only when it is the canonical decimal text of that index, so "01" and "" are not indexes. |
| Js.DecimalIsIndex | template.js:97 | The decimal text of every natural number reads back as that array index. |
| Js.CanonicalDecimal | template.js:97 | A canonical digit string is the decimal text of its value. Index names and positions therefore correspond one to one. |
| Interpolation.WrapIsMarker | test/htdocs/modules/template.js:134 | `{{e}}` matches `{{([^}]+)}}` exactly when e is non-empty and has no `}`. |
| Interpolation.CloseAt | test/htdocs/modules/template.js:134 | The `[^}]+` part of the pattern stops at the first `}` after a position, or at the end of the text. |
| Interpolation.MarkerLength | test/htdocs/modules/template.js:134 | The length of the marker at the head of a string, or 0. A positive result is a whole match of the pattern. |
| Interpolation.MarkerLengthExact | test/htdocs/modules/template.js:134 | A string has at most one marker at its head: any match found there has the length `MarkerLength` reports. |
| Interpolation.MarkerLengthComplete | test/htdocs/modules/template.js:134 | `MarkerLength` is positive exactly when some prefix of the string is a marker. |
| Interpolation.ScanTokenizes | test/htdocs/modules/template.js:134-147 | The scanner's reading of a text is a leftmost, non-overlapping split into literal characters and markers. |
| Interpolation.TokenizesUnique | test/htdocs/modules/template.js:134-147 | There is only one such split, so the scanner finds the matches `matchAll` finds. |
| Interpolation.TokenizesRender | test/htdocs/modules/template.js:134-147 | Writing every piece of a split back as it was gives the original text. |
| Interpolation.ScanRoundTrip | test/htdocs/modules/template.js:134-147 | Text outside markers is kept: writing the markers back unchanged rebuilds the text. |
| Interpolation.Exprs | test/htdocs/modules/template.js:147-152 | The expressions collected from the matches are exactly those of the markers found. |
| Interpolation.Distinct | test/htdocs/modules/template.js:153-159 | The expressions to evaluate: no duplicates, and exactly the expressions present. |
| Interpolation.Table | test/htdocs/modules/template.js:137-173 | The `patterns` table has one entry per key, holding `String()` of that key's evaluation. |
| Interpolation.RenderAgree | test/htdocs/modules/template.js:182 | The rewrite depends only on the replacements of the markers present in the text. |
| Interpolation.InjectIsSubstitution | test/htdocs/modules/template.js:133-182 | `inject` replaces every marker occurrence by `String()` of its evaluation and keeps the rest of the text. |
| Interpolation.FailureShowsNull | test/htdocs/modules/template.js:76-88 | An expression that fails evaluates to null, and its marker is written as the text "null". |
| Interpolation.EvaluatedOnce | test/htdocs/modules/template.js:147-173 | Each distinct marker expression is evaluated once, even when it repeats. Every evaluated expression comes from a marker of the text. |
| Interpolation.MarkersAreExprs | test/htdocs/modules/template.js:134 | Every marker found holds a non-empty expression without `}`. |
| Interpolation.RenderLiterals | test/htdocs/modules/template.js:182 | A reading with no marker is rewritten to itself, whatever the replacements. |
| Interpolation.NoMarkerScan | test/htdocs/modules/template.js:134 | Text in which no position starts a marker is read as literals only. |
| Interpolation.InjectNoMarker | test/htdocs/modules/template.js:133-182 | Text without a marker evaluates nothing and comes back identical. |
| Interpolation.NoReinterpolation | test/htdocs/modules/template.js:153-182 | In `{{a}}-{{a}}` the repeated expression is evaluated once. Its string result w is inserted verbatim at both places, giving `w-w`, even when w itself contains a marker. |
| Interpolation.NotMarkers | test/htdocs/modules/template.js:134 | `{{}}` and `{{a}b}}` are not markers and stay as they are. |
| Directives.DirectiveNotHandler | test/htdocs/modules/template.js:480-486 | No `template`/`template-*` attribute is treated as an `on*` event handler. |
| Directives.GetCondition | test/htdocs/modules/template.js:378-391 | An absent `template-if` holds and leaves the element untouched. Otherwise the attribute alone is consumed and the truthiness of its evaluation decides, so a failed evaluation is false. |
| Directives.ParseMode | test/htdocs/modules/template.js:273-280 | The mode is fill or replace exactly when the lower-cased text is that mode's name. Text that names no mode gives append. |
| Directives.ParseModeAnyCase | test/htdocs/modules/template.js:273-276 | Each mode's name is recognised in lower and in upper case. |
| Directives.ParseModeIgnoresCase | test/htdocs/modules/template.js:273 | The mode is the same for a text, its lower-case and its upper-case forms. |
| Directives.GetMode | test/htdocs/modules/template.js:270-284 | An absent `template-mode` gives append. Otherwise the mode is parsed from the attribute text interpolated against the text itself. |
| Directives.FetchedData | test/htdocs/modules/template.js:312-319 | A data fetch whose response is not ok yields null. An ok response yields the parsed JSON. |
| Directives.GetData | test/htdocs/modules/template.js:303-332 | Consumes `template-data-src` and `template-data` and no other attribute. Without them the data is unchanged. `template-data-src` fetches from the interpolated URL. `template-data` evaluates against the fetched data when both are present. |
| Directives.IterableItems | test/htdocs/modules/template.js:353-360 | The `in` test throws exactly for null. An array gives its items, an object gives the items of its iteration protocol or none, and a non-object gives no items. |
| Directives.GetIterable | test/htdocs/modules/template.js:342-366 | An absent `template-foreach` means no iteration and leaves the element untouched. Otherwise the attribute alone is consumed and the expression is evaluated against the data. Null rejects. Any other value iterates exactly its items. |
| Directives.FetchedTemplate | test/htdocs/modules/template.js:193-207 | A fetched template is a fresh `<template>`. Its content is the response markup, or empty when the response is not ok. |
| Directives.GetTemplate | test/htdocs/modules/template.js:219-250 | `template` is consumed and looked up by its interpolated id. An unknown id gives none without trying `template-src`. Otherwise `template-src` is consumed and fetched. With neither, the element is untouched. |
| Directives.ProcessAttributes | test/htdocs/modules/template.js:478-491 | `on*` attributes are removed. Directive attributes keep their text. Every other attribute is interpolated. |
| Directives.ExecuteProlog | test/htdocs/modules/template.js:401-407 | The prolog runs once with the current data and its attribute is consumed; without it nothing happens. |
| Directives.ExecuteEpilog | test/htdocs/modules/template.js:417-423 | The epilog runs once with the current data and its attribute is consumed; without it nothing happens. |
| Directives.Introduce | test/htdocs/modules/template.js:549-553 | After the prolog and attribute interpolation: the prolog ran if present; directives other than the prolog are intact; `on*` attributes are gone; every other attribute is interpolated. |
| Directives.Prepare | test/htdocs/modules/template.js:549-559 | Prolog, attributes, data and iterable in that order. Only the four attributes they read are consumed, ordinary attributes are interpolated, and iteration is asked for exactly when `template-foreach` is present. |
| Directives.PrepareRebinds | test/htdocs/modules/template.js:555-558 | The data bound after preparation is what `getData` computes from the element's data attributes. `template-foreach` is evaluated against that rebound data: null rejects, any other value iterates its items. |
| Engine.Placement | test/htdocs/modules/template.js:452-456 | What stands in an element's position afterwards: the element itself when kept, the fragment's nodes (moved out of the fragment) for an iteration, nothing when removed or rejected, and replace mode's nodes only when the element had a parent. It is made of elements only. |
| Engine.Assemble | test/htdocs/modules/template.js:443-450 | Dropping null results and appending the rest to a fragment yields elements only. |
| Engine.ProcessElement | test/htdocs/modules/template.js:530-604 | `processElement` produces a well-formed result. A kept element other than `<template>` has lost `template-if`, the prolog, the data, iteration and template attributes, the epilog and every `on*` attribute. |
| Engine.Resolve | test/htdocs/modules/template.js:566-603 | After the iterable step: a kept element keeps its tag and every attribute except `template`, `template-src` and the epilog, and the epilog is the last thing run. |
| Engine.ProcessChildNodes | test/htdocs/modules/template.js:499-518 | The child walk leaves no comment node. |
| Engine.ProcessChild | test/htdocs/modules/template.js:501-516 | One child: no comment survives. |
| Engine.Iterate | test/htdocs/modules/template.js:432-461 | Iteration always replaces the element: by a fragment, by nothing, or the promise rejects. |
| Engine.Clones | test/htdocs/modules/template.js:437 | One outcome per item, each well formed. |
| Engine.Create | test/htdocs/modules/template.js:614-635 | The fragment holds elements only. Content that is not a `<template>` is rejected. |
| Engine.Roots | test/htdocs/modules/template.js:625 | One outcome per template root, each well formed. |
| Engine.FillMode | test/htdocs/modules/template.js:655-675 | Fill keeps the target with exactly the created fragment as its children. |
| Engine.AppendMode | test/htdocs/modules/template.js:692-706 | Append keeps the target's children and adds the created fragment after them. |
| Engine.ReplaceMode | test/htdocs/modules/template.js:724-738 | Replace resolves to undefined, with the created fragment in the target's place. |
| Engine.Apply | test/htdocs/modules/template.js:569-591 | Whatever the mode, a kept target keeps its tag and attributes. |
| EngineFacts.KeptViaResolve | test/htdocs/modules/template.js:559-603 | A kept element passed its condition and had no `template-foreach`. Its result is what `Resolve` gives, and its trace is the prolog followed by what `Resolve` ran. |
| EngineFacts.ResolveKeepsOrdinary | test/htdocs/modules/template.js:566-603 | Applying a template or walking the children never changes an ordinary attribute of the element. |
| EngineFacts.ResolveFallsThrough | test/htdocs/modules/template.js:222-235 | When the interpolated `template` id is empty or names no element, `template-src` is not fetched. The element is kept with `template-src` in place, or the walk of its children rejects. |
| EngineFacts.TemplateElementUntouched | test/htdocs/modules/template.js:536 | A `<template>` element comes back unchanged and nothing runs. |
| EngineFacts.FalseConditionRemoves | test/htdocs/modules/template.js:539-546 | A false or failing `template-if` removes the element. No prolog, data, iteration or children are processed. |
| EngineFacts.PrologFirst | test/htdocs/modules/template.js:539-549 | When the condition holds, the prolog is the first thing run. |
| EngineFacts.EpilogLast | test/htdocs/modules/template.js:589-599 | When the element is kept, its epilog is the last thing run. |
| EngineFacts.IterationReplacesElement | test/htdocs/modules/template.js:559-563 | `template-foreach` takes over: the element is never kept. |
| EngineFacts.KeptShape | test/htdocs/modules/template.js:530-604 | A kept element keeps its tag, gains no attribute and has every consumed directive removed. |
| EngineFacts.KeptDirectives | test/htdocs/modules/template.js:530-604 | Directives the engine does not consume, such as `template-mode`, survive unchanged. |
| EngineFacts.KeptInterpolated | test/htdocs/modules/template.js:478-491 | Every ordinary attribute of a kept element is interpolated once against the data before rebinding. |
| EngineFacts.ModeStays | test/htdocs/modules/template.js:270-284 | `template-mode` is never removed. |
| EngineFacts.UnknownTemplateKeepsSource | test/htdocs/modules/template.js:222-235 | A `template` id that is empty or names no element gives none and leaves `template-src` in place. |
| EngineFacts.UnknownTemplateFallsThrough | test/htdocs/modules/template.js:566-603 | An element whose `template` id, interpolated against the rebound data, names no element is never replaced. If kept, it still carries `template-src`. |
| EngineFacts.AssembleConcat | test/htdocs/modules/template.js:443-450 | Assembly distributes over concatenation of result lists. |
| EngineFacts.DropsNonSurvivor | test/htdocs/modules/template.js:443-450 | A null or undefined result contributes nothing and does not disturb the order of the others. |
| EngineFacts.AssembleKept | test/htdocs/modules/template.js:443-450 | When every result is kept, the fragment holds them all, in order. |
| EngineFacts.ClonesInItemOrder | test/htdocs/modules/template.js:437 | Clone i is processed with item i. The join fails exactly when one clone does. |
| EngineFacts.RootsInOrder | test/htdocs/modules/template.js:625 | Template root i is processed in position i. The join fails exactly when one root does. |
| EngineFacts.IterateEmpty | test/htdocs/modules/template.js:443-459 | An empty iterable removes the element and yields null. |
| EngineFacts.IterateInItemOrder | test/htdocs/modules/template.js:437-459 | When every clone is kept, the fragment holds the clones in item order. |
| EngineFacts.IterateNoSurvivor | test/htdocs/modules/template.js:443-459 | When no clone survives, the element is removed and the result is null. |
| EngineFacts.CreateInTemplateOrder | test/htdocs/modules/template.js:614-635 | When every root is kept, the fragment holds the processed roots in template order. |
| EngineFacts.CreateIgnoresTopText | test/htdocs/modules/template.js:616 | Text and comments at the top of a template are not copied. |
| EngineFacts.ChildKinds | test/htdocs/modules/template.js:501-516 | Text is interpolated, a comment disappears, another node stays, and a kept element stays with its trace. |
| EngineFacts.ChildNodesConcat | test/htdocs/modules/template.js:499-518 | The child walk is compositional: two runs of children are processed independently and concatenated. The walk fails exactly when one run does. |
| EngineFacts.PlainChildrenUnchanged | test/htdocs/modules/template.js:502-515 | Text without markers and other non-element nodes come through the walk unchanged. |
| EngineFacts.PlainChildUnchanged | test/htdocs/modules/template.js:502-515 | One text node without markers, or one node that is neither text, comment nor element, comes through unchanged. |
| EngineFacts.FillForgetsContent | test/htdocs/modules/template.js:661 | Fill does not depend on the target's previous content. |
| EngineFacts.FillIdempotent | test/htdocs/modules/template.js:655-675 | Filling a filled element again with the same template and data changes nothing. |
| EngineFacts.AppendTwice | test/htdocs/modules/template.js:692-706 | Appending twice leaves the old content followed by two copies of the fragment. |
| EngineFacts.FillIsAppendOnEmpty | test/htdocs/modules/template.js:655-706 | On an empty target, fill and append agree. |
| EngineFacts.ReplaceForgetsTarget | test/htdocs/modules/template.js:724-738 | What replace produces does not depend on the target. |
| EngineFacts.NonTemplateRejects | test/htdocs/modules/template.js:616 | Content that is not a `<template>` makes every mode reject. |
| Draft.Given | template.js:40-41 | A directive counts exactly when `getAttribute` of it is truthy: present and not empty. Its text is the attribute's. |
| Draft.DispatchAsWritten | template.js:99-141 | The switch as written: only undefined clears, and null goes to the object branch with objects. |
| Draft.Dispatch | template.js:99-141 | The corrected dispatch: null and undefined clear; booleans, numbers and BigInts are JSON; strings are verbatim; arrays fan out; objects pass down; functions throw. |
| Draft.ScalarText | template.js:103-105 | The shown text equals `JSON.stringify` wherever that does not throw. For a BigInt it is the digits. |
| Draft.Template | template.js:34-153 | Whatever the directives, the nodes left in the element's place are elements with its tag, or none when it is removed. |
| Draft.Show | template.js:93-141 | A field step leaves only elements with the element's tag in its place. |
| Draft.FanOut | template.js:110-128 | A fanned-out element leaves only copies with its tag, and its promise is `Promise.all` over exactly one promise per item. |
| Draft.Copies | template.js:118-126 | One run per item. |
| Draft.Distribute | template.js:144-153 | Passing data down keeps the element, with its tag and attributes, as the only node. |
| Draft.WalkChild | template.js:149-152 | A non-element child stays as it is. An element child contributes its own nodes and exactly its own promise. |
| Draft.NthElement | template.js:148-150 | `children.item(k)` is the k-th element node of the list, present exactly for k below the number of element children. Exactly k element nodes come before it. |
| DraftFacts.IfFirst | template.js:40-58 | `template-if` comes before all else. Null or undefined data throws. An empty field removes the element with a null result. Otherwise the element is taken again without the attribute. |
| DraftFacts.NoIfKeepsElement | template.js:60-153 | Without a given `template-if`, the element is never removed. It stands in place as one or more elements with its tag. |
| DraftFacts.CopiesKeepElement | template.js:114-128 | Each copy of a fanned-out element is one or more elements with its tag. |
| DraftFacts.RemovedOnlyByEmptyIf | template.js:40-58 | An element disappears exactly when its `template-if` names a null, undefined or empty-array field. |
| DraftFacts.NameBeforeDataAndField | template.js:60-76 | `template-name` is taken before `template-data` and `template-field`. Only its attribute is removed, and the promise waits on the fetch of its URL. |
| DraftFacts.DataBeforeField | template.js:78-91 | `template-data` is taken before `template-field`, which stays on the element. The promise waits on the data fetch. |
| DraftFacts.Plain | template.js:96 | The field step removes `template-field` and nothing else. |
| DraftFacts.FieldOfNothingThrows | template.js:94-97 | Reading a field of null or undefined data throws. Otherwise the field step decides. |
| DraftFacts.ShownText | template.js:100-108 | With the corrected dispatch, the content of a scalar field: none for null and undefined, the string itself, and the JSON text or digits. |
| DraftFacts.ScalarShown | template.js:99-108 | With the corrected dispatch, a scalar field replaces the element's content by its text. The element stays and the promise resolves to it. |
| DraftFacts.NullFieldClears | template.js:100-102 | With the corrected dispatch, a null field clears the content, as undefined does. |
| DraftFacts.NullFieldAsWritten | template.js:99-109 | `typeof` never yields 'nul'. As written, a null field goes to the object branch. |
| DraftFacts.BigIntFieldAsWritten | template.js:103-104 | As written, a BigInt field reaches `JSON.stringify`, which throws. The corrected text is its digits. |
| DraftFacts.EmptyArrayClears | template.js:110-113 | An empty array clears the content and resolves to null, leaving the element in place. |
| DraftFacts.ObjectPassedDown | template.js:129-138 | An object field becomes the data of the element's children. |
| DraftFacts.FunctionFieldThrows | template.js:139-140 | A field of an unhandled type throws. |
| DraftFacts.BarePassesData | template.js:144-153 | Without any directive, the children get the current data unchanged. |
| DraftFacts.CopiesInItemOrder | template.js:118-126 | Copy k is taken with item k, in order. The copies all succeed exactly when every item does. |
| DraftFacts.CopyIsOneElement | template.js:114-126 | Each copy stays a single element. |
| DraftFacts.FanOutInItemOrder | template.js:110-128 | N items give N elements in item order, the original first with item 0. The promise lists the clones' promises first and the original's last. |
| DraftFacts.EachPromiseByPosition | template.js:147-153 | Taking children one by one succeeds exactly when each does. Each child's promise sits at its position. |
| DraftFacts.WalkVisitsEach | template.js:144-153 | The corrected walk takes every element child once, in order, with the same data. |
| DraftFacts.InertUnchanged | template.js:144-153 | A tree without directives is left exactly as it is, whatever the data, even null. |
| DraftFacts.InertWalkUnchanged | template.js:147-152 | A child list without directives is walked without change. |
| DraftFacts.LiveWalkSkipsSibling | template.js:147-152 | As written, the child after a removed child is skipped. |
| DraftFacts.WalkTakesSibling | template.js:147-152 | Walking the children as they were at the start fills that sibling from its field. |

## Left out

- Expression evaluation and code execution (`new Function`, lines 76-110 of
  the engine) are an oracle, and code execution is recorded rather than
  performed. The `app` argument and `this` are not modelled.
- Network loading is an oracle that returns the parsed response or none.
  A network error is treated like a response that is not ok; the source
  differs, as the `Directives.FetchedData` and `Directives.FetchedTemplate`
  lines below say. In the draft,
  the continuations of the `template-name` and `template-data` fetches
  (template.js:70-75 and 87-90) are not modelled; the element stays in place
  waiting on the fetch.
- Draft.Template: the continuation of `template-data` parses the already
  parsed JSON a second time (template.js:89). It runs after the fetch and is
  not modelled.
- Busy-element handling (lines 27-46, 657, 694, 726) only adds and removes
  a placeholder; line 42 refers to an undefined `busyElementBuilder`.
- The `on*` handler closures (line 485) are modelled only as the removal of
  the attribute. The `setData` closure (lines 665-667) and `_app`/`setApp`
  (lines 11-22) are left out.
- Concurrency and timing. The un-awaited `processAttributes` (line 553) is
  modelled as finishing before the data is rebound. The un-awaited
  `getData` (line 556) is modelled as finishing before `template-foreach` is
  read; in the source, with `template-data-src` present, `template-data` is
  consumed only after `await inject(url)`. The un-awaited epilog of line 589
  is modelled as running at once. An interleaving in which an attribute is
  interpolated after data rebinding, or an epilog runs late, is not
  represented. One visible result: on a `template-foreach` element the
  clones of line 437 are taken before the un-awaited attribute step has
  written its values, so in the source each clone copies the raw `{{…}}`
  attribute text and interpolates it against its own item (for example,
  `title="{{data.name}}"` gives each item's name), whereas the model
  interpolates the attributes once against the parent's data before cloning.
- Concurrency of siblings. `processChildNodes` (line 500), `iterate`
  (line 437) and `create` (line 625) start every sibling before any
  finishes, so the prologs of later siblings may run before the children of
  earlier ones, and when one sibling rejects the others keep running, with
  their changes to the document and their epilogs. The model runs siblings
  in index order and stops at the first rejection; its trace of a rejected
  run keeps only the rejecting element's prolog.
- EngineFacts.ChildNodesConcat: its trace half, `ra.execs + rb.execs`, is
  the order of the sequential model. In the source the hooks of two runs of
  siblings may interleave; only the order of the nodes is fixed.
- Engine.Placement: a rejected element (`Aborted`) is modelled as leaving
  nothing in its place, and the rejection rejects the enclosing walk. In the
  source the element stays in the document, partly processed, because no
  step removes it.
- Js.ToStr: an object's `String()` is always "[object Object]". A custom
  or inherited `toString`, and the texts of `Date`, `RegExp`, `Error` and
  similar objects, are not modelled, so `inject` writes a different text
  for such results.
- Engine.ProcessById: the string-id branch of line 533 is modelled as a
  lookup in the document's id map, with an unknown id rejecting. Its
  contract only restates that lookup, so it has no row in the table.
- Console logging, and the unreachable default mode branch (line 585).
- Symbols, floating-point arithmetic (numbers are carried as their text),
  inherited properties (a property not owned by the object reads as
  undefined), a function's own `length` and `name` (a property of a
  function value reads as undefined), and `innerText` turning line breaks into `<br>`.
- `apply` in template.js:157-203 is not valid JavaScript and is unused.
- Draft.Walk: the walk is modelled on the child list as it was when the walk
  began. The written live walk is `Draft.LiveWalk`. Its fuel bounds the
  number of children taken; running out is reported as none.
- Engine.Create: the fuel bounds how deep template content may apply
  templates again. A run that spends it is a rejected promise
  (`OutOfFuel`), which the source would instead recurse into without end.
- Draft.Template: the draft is modelled with the corrected dispatch
  (`Draft.Dispatch`, `Draft.ScalarText`): a null field clears the content and
  a BigInt field shows its digits. The switch as written is
  `Draft.DispatchAsWritten`; the differences are under Findings.
- Draft.LiveWalk: it has no contract of its own; what the live walk does is
  stated by `DraftFacts.LiveWalkSkipsSibling`.
- Interpolation.Evaluate: the evaluator returns a value or fails. An
  expression whose value is a promise that rejects (an `async` call, say)
  makes `evaluate` reject, because the promise is returned from inside the
  `try` without being awaited (line 83). That rejection is not modelled.
- Directives.FetchedData: a network error, or an ok response whose body is
  not JSON, leaves the data bound to a rejecting promise (lines 313-319).
  Every later evaluation against it then reads as null: `template-foreach`
  rejects and a child's `template-if` fails. The model binds null instead.
- Directives.FetchedTemplate: a network error makes `fetchTemplate` reject
  (line 194), and with it the element's promise. The model gives an empty
  template instead.
- Engine.Outcome: the promise of an iterated element resolves to the
  fragment object. The model records the fragment's nodes, which are
  emptied out of it when the element has a parent (line 452).
- Dom.ElementChildren: its own contract states membership and length;
  document order is stated by `Dom.ElementChildrenConcat` and
  `Dom.ElementChildrenOne`.
- Interpolation.Scan and Interpolation.Inject carry no contract of their
  own; the scan is specified by `Interpolation.ScanTokenizes` and
  `Interpolation.TokenizesUnique`, and `inject` by
  `Interpolation.InjectIsSubstitution`.
- Draft.FanOut: copies are placed after the element as the element's
  parent allows; a root element without a parent, whose copies `after()`
  would drop, is not distinguished.

## Findings

| source | as written | input that shows it | evidently intended | confidence | as-written member | corrected member |
|---|---|---|---|---|---|---|
| template.js:147-152 | The loop reads the live `element.children` by index while each child may remove itself or insert clones, so the sibling after a removed child is skipped (and clones are taken again with the parent's data) | children `<p template-if="x">` then `<p template-field="y">`, data `{y: "hi"}`: the second paragraph keeps `template-field` and no text | every element child is taken once, in order | high; not executed | DraftFacts.LiveWalkSkipsSibling | DraftFacts.WalkTakesSibling |
| template.js:100 | `case 'nul'` can never match `typeof`, so a null field falls into the object branch and is handed to the children as their data | `<p template-field="x">old</p>` with data `{x: null}`: the text stays | a null field clears the text as undefined does | high; not executed | DraftFacts.NullFieldAsWritten | DraftFacts.NullFieldClears |
| template.js:103-104 | 'bigint' is sent to `JSON.stringify`, which throws a TypeError for a BigInt | `<p template-field="n">` with data `{n: 10n}` throws | the digits of the BigInt become the text | high; not executed | DraftFacts.BigIntFieldAsWritten | DraftFacts.ScalarShown |
