# flawless-conformance in Dafny

This project models the core of the conformance runner for less stylesheets. The runner is a transform stream. It collects the stylesheet text chunk by chunk, optionally passing each chunk straight through. When the input ends, it hands the text to the less parser. It then walks the main file's syntax tree and each imported file's tree, emitting one event per construct it recognises: ROOT, RULESET, SELECTORS, SELECTOR, RULE, VARIABLE, COMMENT, MIXIN, MIXIN_DEFINITION, MIXIN_CALL, MEDIA and IMPORT. Tasks such as the Debug task subscribe to these events when they are registered, and unsubscribe when destroyed.

The modules follow the program:

- `Wrappers`: `Option` and `Result`.
- `Js`: the JavaScript semantics the walker relies on.
  - Case-insensitive `/pattern/i.test`.
  - Truthiness.
  - `String(n)`.
  - `Array.prototype.join`.
- `Ast`: the parser nodes the walker reads.
- `Events`: the events, and a walk's trace (events emitted, plus the error thrown, if any).
- `Values`: `_getRuleValues` and `_getArguments`.
- `Filename`: `_getFilename`.
- `Walker`: `_processNode` and every `_process*` handler.
- `WalkerFacts`: properties of the walk.
- `Bus`: the runner's `on`/`off` listener table.
- `DebugTask`: `lib/tasks/debug.js`.
- `Conformance`: the constructor's options, `register` and `parse`.
- `Stream`: `_transform` and `_flush`. The runner's observable behaviour is a log of what it emits, pushes and signals to the stream machinery.

What the model makes explicit:

- **The less parser** is a function parameter (`less: LessRequest -> LessOutcome`). Its result is either an error, or the main tree, the imported trees in key order, and the outcome of rendering the parse tree: the compiled CSS as an opaque string, or the error the rendering throws.
- **A walk that throws** keeps the events it already emitted, because emission is synchronous.
- **Behaviour of the code that the model keeps:**
  - `_getFilename` falls back to a walk down the left spine. When that walk ends at a node without `rules`, it returns `'error getting filename'` (lib/index.js:427). When it ends at an empty `rules` array, it throws.
  - The imported files are walked inside one `try`, so the first import whose walk throws ends the walk of all later imports (lib/index.js:79-86).
  - A less error is passed to `emit` as if it were an event name, and the callback is not called (lib/index.js:62-65).
  - The parse tree is rendered to CSS outside any `try` (lib/index.js:91-92), so a rendering that throws escapes before the callback.
  - `destroy` on a task that was never installed throws (lib/tasks/debug.js:41-49).
  - The collected input is never reset.
  - An unrecognised node is only logged, and the walk goes on (lib/index.js:169).
  - `compiling` has no default, so it reads as `undefined` and is treated as `false`.

## Model

| member | source | states |
|---|---|---|
| Js.TestFindsOccurrence | lib/index.js:123-166 | `/pattern/i.test(type)` holds exactly when the pattern occurs, ignoring ASCII case, at some position of `type` |
| Js.DigitsRoundTrip | lib/index.js:246-247 | a number printed by `join` in decimal reads back as the same number |
| Js.JoinAppend | lib/index.js:244-247 | joining two non-empty lists one after the other is joining each and putting one separator between them, so every part appears whole, in order, with one separator between neighbours |
| Js.JoinLength | lib/index.js:244-247 | a join is as long as all the parts together plus one separator between each two neighbours |
| Values.Reduce | lib/index.js:380-399 | models the per-leaf choice as written; what it promises is stated by Values.ReducePrefersValueThenName |
| Values.ReducePrefersValueThenName | lib/index.js:380-399 | a leaf reduces to its truthy `value`, else its truthy `name`, else `'Operation'` for operations, else `undefined`; the result is usable exactly when one of the three applies |
| Values.FirstLeaves | lib/index.js:376-378 | `value.value[0]` throws exactly when some expression has no `value` array; otherwise one entry per expression, `undefined` exactly for an empty array |
| Values.ReduceAll | lib/index.js:380-399 | reducing throws exactly when some leading leaf is `undefined`; otherwise one reduction per leaf, in order |
| Values.Kept | lib/index.js:401-403 | models `filter(leaf => leaf)` as written; what it keeps is stated by Values.KeptIsTheTruthySubsequence |
| Values.KeptIsTheTruthySubsequence | lib/index.js:401-403 | `filter(leaf => leaf)` returns an order-preserving subsequence made only of truthy entries, as many as the input has |
| Values.RuleValues | lib/index.js:369-404 | a bare string gives itself; an expression list succeeds exactly when every expression has a non-empty `value` array, and then yields at most one truthy value per expression, all of them truthy |
| Values.Reductions | lib/index.js:376-399 | the reference list: one reduction per expression's leading leaf, in source order |
| Values.RuleValuesAreTheUsableReductions | lib/index.js:374-403 | the reported values are exactly the usable per-expression reductions, in order |
| Values.RuleValuesReportsReference | lib/index.js:369-404 | the reducer succeeds exactly on a bare string or an expression list whose every expression has a non-empty `value` array, and then reports the reference answer: the string itself, or the truthy per-expression reductions in source order |
| Values.ArgumentValue | lib/index.js:438-445 | models one argument as written; its cases are stated by Values.ArgumentValues |
| Values.ArgumentValues | lib/index.js:437-446 | one entry per argument; the `[]` placeholder exactly when `arg.value.value[0]` throws; otherwise the leading leaf, `undefined` exactly for an empty array |
| Filename.SpineSearch | lib/index.js:417-427 | models the `while` loop as written; its result is stated by Filename.SpineSearchFindsFirstFileInfo and Filename.SpineSearchWithoutFileInfo |
| Filename.SpineSearchFindsFirstFileInfo | lib/index.js:417-427 | the spine search returns the file name of the first node on the left spine that has one |
| Filename.SpineSearchWithoutFileInfo | lib/index.js:417-427 | with no file name on the spine, the search returns the sentinel if the spine ends without `rules`, and throws if it ends at an empty `rules` array |
| Filename.GetFilenameFollowsSpine | lib/index.js:412-428 | on the left spine: the second node's (the first rule's) file name when it has one; otherwise the first spine node's that has one, the tree's own node included; with none, the sentinel when the spine ends without `rules` and a throw when it ends at an empty `rules` array |
| Events.ChainCompletes | lib/index.js:79-86 | running walks one after another completes exactly when every walk does, and then holds all their events in order |
| Events.ChainStopsAtFirstThrow | lib/index.js:79-86 | the first walk that throws ends the run: earlier walks contribute all events, it contributes those before its throw, later walks none |
| Walker.ProcessNode | lib/index.js:121-170 | models `_processNode` as written; its test order is stated by WalkerFacts.DispatchFollowsTestOrder and its traversal by WalkerFacts.WalkVisitsInPreorder |
| Walker.ProcessRoot | lib/index.js:178-185 | models `_processRoot` as written; stated by WalkerFacts.RootComesFirst |
| Walker.ProcessRuleset | lib/index.js:193-203 | models `_processRuleset` as written; stated by WalkerFacts.RulesetShape and WalkerFacts.RulesetVisitsInPreorder |
| Walker.ProcessSelectors | lib/index.js:211-219 | models `_processSelectors` as written; stated by WalkerFacts.SelectorEventsInterleave, WalkerFacts.SelectorEventsFollowSource and WalkerFacts.SelectorEventCounts |
| Walker.ProcessSelector | lib/index.js:226-233 | models `_processSelector` as written; stated by WalkerFacts.ElementEventsFollowSource |
| Walker.ProcessRule | lib/index.js:241-250 | models `_processRule` as written; stated by WalkerFacts.RuleOutcome |
| Walker.ProcessVariable | lib/index.js:258-264 | models `_processVariable` as written; stated by WalkerFacts.DispatchFollowsTestOrder and WalkerFacts.VariableVisits |
| Walker.ProcessComment | lib/index.js:272-277 | models `_processComment` as written; stated by WalkerFacts.DispatchFollowsTestOrder and WalkerFacts.CommentVisits |
| Walker.ProcessMixin | lib/index.js:287-303 | models `_processMixin` as written; stated by WalkerFacts.MixinOutcomes |
| Walker.ProcessMixinCall | lib/index.js:310-318 | models `_processMixinCall` as written; stated by WalkerFacts.MixinCallOutcome, WalkerFacts.MixinOutcomes and WalkerFacts.CallVisits |
| Walker.ProcessMixinDefinition | lib/index.js:325-338 | models `_processMixinDefinition` as written; stated by WalkerFacts.MixinOutcomes and WalkerFacts.DefinitionVisitsInPreorder |
| Walker.ProcessMedia | lib/index.js:345-354 | models `_processMedia` as written; stated by WalkerFacts.MediaOutcome |
| Walker.ParamNames | lib/index.js:328-330 | one name per parameter; a missing name prints as the empty string |
| WalkerFacts.DispatchFollowsTestOrder | lib/index.js:121-170 | tests run in the order import, mixin, comment, media, `isRuleset`, `variable`, rule; each route emits its handler's first event; an unrecognised node emits nothing and does not stop the walk |
| WalkerFacts.RulesetShape | lib/index.js:193-203 | RULESET comes first; the walk completes exactly when `rules` exists and every child completes; then its events are RULESET, the selector events, then the children's events |
| WalkerFacts.MixinOutcomes | lib/index.js:287-338 | MIXIN comes first; a definition emits MIXIN_DEFINITION and descends only when `isRuleset`; a call completes exactly when the node has a selector and arguments, and then emits one MIXIN_CALL named by the selector's element values joined by `, `, with `_getArguments` of its arguments; any other type throws right after MIXIN |
| WalkerFacts.MixinCallOutcome | lib/index.js:310-318 | a mixin call completes exactly when the node has a selector and arguments; it then emits only MIXIN_CALL, named by the selector's element values joined by `, `, whose arguments are `_getArguments` of the node's arguments, carrying the node; otherwise it emits nothing |
| WalkerFacts.MediaOutcome | lib/index.js:345-354 | a media walk completes exactly when the node has a readable feature list and a `rules` array whose nodes all complete; it then emits MEDIA, whose features are the reference reductions rendered and joined by `, `, then every body node's events |
| WalkerFacts.MediaNeedsRules | lib/index.js:353 | a media node without `rules` never completes |
| WalkerFacts.RuleOutcome | lib/index.js:241-250 | a rule walk completes exactly when the name is a segment array and the value list is readable; it then emits one RULE named by the segments joined by `, `, whose value is the reference reductions rendered and joined by `, `; otherwise it emits nothing |
| WalkerFacts.ColorBlueIsOneRule | spec/basic.js:38-42 | `color: blue`, its value a one-expression list, yields one RULE named `color` with value `blue` carrying the `Rule` node |
| WalkerFacts.ColorBlueRawIsOneRule | lib/index.js:369-372 | `color: blue` with its value as a bare string yields the same RULE |
| WalkerFacts.ElementEventsFollowSource | lib/index.js:226-233 | the i-th event is the SELECTOR for the i-th element, named by its `value` and carrying the element itself; nothing else is emitted |
| WalkerFacts.SelectorEventsInterleave | lib/index.js:211-219 | the selector events of a ruleset number one per selector plus one per element; the i-th selector's SELECTORS event comes at its offset (i plus the earlier selectors' elements), carrying it, and is followed at once by one SELECTOR event per element of that selector, named by the element's `value` and carrying the element |
| WalkerFacts.SelectorEventsFollowSource | lib/index.js:211-219 | the SELECTORS events carry the selectors in order, and the SELECTOR events carry every selector's elements in source order |
| WalkerFacts.SelectorEventsNamedByElement | lib/index.js:226-233 | every SELECTOR event is named by the `value` of the element it carries |
| WalkerFacts.SelectorEventCounts | lib/index.js:211-233 | one SELECTORS event per selector and one SELECTOR event per element |
| WalkerFacts.SelectorEventsCarryNoNode | lib/index.js:211-233 | the selector events carry selectors and elements, not statement nodes, so the per-kind lists of carried statement nodes (the preorder lists) leave them out |
| WalkerFacts.WalkVisitsInPreorder | lib/index.js:121-170 | for every kind, the nodes a completed walk reports are exactly the independently defined preorder list |
| WalkerFacts.ImportVisits | lib/index.js:123-128 | an import reports only itself and is not descended into |
| WalkerFacts.CommentVisits | lib/index.js:272-277 | a comment reports only itself |
| WalkerFacts.VariableVisits | lib/index.js:258-264 | a variable reports only itself |
| WalkerFacts.RuleVisits | lib/index.js:241-250 | a rule reports only itself |
| WalkerFacts.MediaVisitsInPreorder | lib/index.js:345-354 | a media block reports itself, then its body in preorder |
| WalkerFacts.MixinVisitsInPreorder | lib/index.js:287-303 | a mixin reports itself under MIXIN, then what its definition or call reports |
| WalkerFacts.CallVisits | lib/index.js:310-318 | a mixin call reports itself under MIXIN_CALL and is never descended into |
| WalkerFacts.DefinitionVisitsInPreorder | lib/index.js:325-338 | a definition reports itself, and its body in preorder only when `isRuleset` |
| WalkerFacts.RulesetVisitsInPreorder | lib/index.js:193-203 | a ruleset reports itself, then its children in preorder |
| WalkerFacts.WalkAllVisitsInPreorder | lib/index.js:202 | walking siblings reports each one's preorder list in turn |
| WalkerFacts.WalkEmitsNoRoot | lib/index.js:121-170 | walking a node never emits ROOT, completed or not |
| WalkerFacts.MediaEmitsNoRoot | lib/index.js:345-354 | a media walk never emits ROOT |
| WalkerFacts.MixinEmitsNoRoot | lib/index.js:287-303 | a mixin walk never emits ROOT |
| WalkerFacts.DefinitionEmitsNoRoot | lib/index.js:325-338 | a definition walk never emits ROOT |
| WalkerFacts.RulesetEmitsNoRoot | lib/index.js:193-203 | a ruleset walk never emits ROOT |
| WalkerFacts.ChildrenEmitNoRoot | lib/index.js:202 | walking a node's children never emits ROOT |
| WalkerFacts.NodesEmitNoRoot | lib/index.js:202 | walking siblings never emits ROOT |
| WalkerFacts.SelectorsHaveNoRoot | lib/index.js:211-219 | selector events include no ROOT |
| WalkerFacts.ElementsHaveNoRoot | lib/index.js:226-233 | element events include no ROOT |
| WalkerFacts.RootComesFirst | lib/index.js:178-185 | a root walk throws at once if its file name throws; otherwise it is exactly one ROOT followed by the ruleset walk |
| WalkerFacts.SiblingsStopAtFirstThrow | lib/index.js:202 | `rules.forEach(_processNode)` is the walk of each child in turn, ending at the first throw |
| Bus.On | lib/tasks/debug.js:34-38 | `on` appends the listener to its event's list and changes no other event |
| Bus.Off | lib/tasks/debug.js:42-46 | `off` removes the last registration of the listener from its event's list, changes no other event, and drops an emptied name |
| Bus.RemoveLastAbsent | lib/tasks/debug.js:42-46 | removing an unregistered listener leaves the list unchanged |
| Bus.RemoveLastAt | lib/tasks/debug.js:42-46 | removing a listener drops exactly its last occurrence |
| Bus.RemoveLastDropsLastOccurrence | lib/tasks/debug.js:42-46 | removal changes nothing when the listener is absent, and otherwise drops exactly its last registration, keeping the others in order |
| Bus.OffUndoesOn | lib/tasks/debug.js:34-46 | `off` after `on` of the same listener restores the table |
| Bus.SubscribeAppends | lib/tasks/debug.js:34-38 | subscribing appends to each event exactly the listeners subscribed under it, in order |
| Bus.Unsubscribe | lib/tasks/debug.js:42-46 | unsubscribing leaves untouched every event it does not name |
| Bus.UnsubscribeRemoves | lib/tasks/debug.js:42-46 | unsubscribing under distinct names removes each listener's last registration from its event |
| Bus.UnsubscribeUndoesSubscribe | lib/tasks/debug.js:27-49 | subscribing then unsubscribing the same distinct-name list restores a valid table |
| DebugTask.SubscriptionsAdd | lib/tasks/debug.js:34-38 | `install` subscribes exactly one listener to each of ROOT, RULE, RULESET, SELECTOR, VARIABLE, and nothing else |
| DebugTask.New | lib/tasks/debug.js:9-14 | a fresh task is named `Debug` and has no runner |
| DebugTask.Install | lib/tasks/debug.js:27-39 | throws before subscribing exactly when options or the runner are missing; otherwise records the runner and adds one listener to each of the five events |
| DebugTask.Destroy | lib/tasks/debug.js:41-49 | throws exactly when there is no runner; otherwise drops the last registration of each of its five listeners, leaves other events unchanged, and clears the runner |
| DebugTask.InstallThenDestroyRestores | lib/tasks/debug.js:27-49 | install then destroy restores the listener table, even if the task was already subscribed, and leaves no runner |
| DebugTask.DestroyBeforeInstallThrows | lib/tasks/debug.js:41-49 | destroying a task that was never installed throws |
| Conformance.Configure | lib/index.js:25-32 | every option the caller gives wins over its default, and every option left out takes it: `['./node_modules']`, `'input'`, no output, streaming, not compiling |
| Conformance.ConfigureFillsDefaults | lib/index.js:25-32 | no options give the defaults `['./node_modules']`, `'input'`, no output, streaming; a complete options object is kept as given |
| Conformance.NewRunner | lib/index.js:22-37 | a new runner has the configured options, no task and no listener |
| Conformance.Register | lib/index.js:44-50 | the task is appended, installed with this runner, and its five listeners are added to the table |
| Conformance.RegisterThenDestroy | lib/index.js:44-50 | destroying the just-registered task takes the table back to what it was |
| Conformance.FileTraces | lib/index.js:80-82 | one root walk per imported file, in key order |
| Conformance.WalkAndReply | lib/index.js:67-102 | models the walks, the rendering and the callback as written; stated by Conformance.WalkIsOneChain |
| Conformance.ParseAsWritten | lib/index.js:57-103 | on a less error, no event, the error passed to `emit` as a name, and no callback; after a successful parse the callback is called exactly when nothing escapes, and only a failed rendering escapes |
| Conformance.Parse | lib/index.js:57-103 | the corrected `parse` always calls back and lets nothing escape; a less error and a rendering error go to the callback; wherever the code as written calls back, it agrees with it |
| Conformance.WalkIsOneChain | lib/index.js:69-102 | the two try blocks act as one run over the main tree then the imports; the callback gets the first error thrown by a walk; it gets the raw source with the compiled CSS exactly when no walk threw and the rendering succeeded; a rendering error escapes and the callback is not called |
| Conformance.FirstFailingTreeEndsTheWalk | lib/index.js:69-86 | the first tree that throws ends the walk, and its error goes to the callback |
| Conformance.RootCount | lib/index.js:69-86 | when every tree's walk completes, there is one ROOT per tree |
| Conformance.OneRootEach | lib/index.js:178-185 | completed root walks hold exactly one ROOT each |
| Conformance.SuccessfulParseReportsEveryFile | lib/index.js:67-102 | a successful parse reports `1 + imports` ROOT events, the main file's first; the rendering succeeded, and the reply is the raw source with the compiled CSS |
| Conformance.ParseAsksLessOnly | lib/index.js:58-61 | `parse` depends on the parser only through the request with the source, `paths` and `entry` |
| Conformance.LessErrorNeverReachesCallback | lib/index.js:62-65 | as written, a less error never reaches the callback; corrected, it does |
| Stream.Open | lib/index.js:34 | a new runner's stream has the runner's options, empty input and an empty log |
| Stream.Transform | lib/transform.js:18-34 | a chunk extends the input by its text (a null chunk adds none), keeps the options, grows the log and ends with `next` |
| Stream.TransformSignals | lib/transform.js:29-33 | `next` is called once, and the chunk is pushed exactly when streaming and not compiling |
| Stream.Feed | lib/transform.js:18-34 | models a run of `_transform` calls; stated by Stream.FeedCollectsEveryChunk, Stream.FeedCallsNextPerChunk and Stream.FeedPassesChunksThrough |
| Stream.FeedCollectsEveryChunk | lib/transform.js:18-21 | after a run of chunks, the input is the previous input followed by every non-null chunk's text in order |
| Stream.FeedCallsNextPerChunk | lib/transform.js:33 | a run of chunks calls `next` once per chunk |
| Stream.FeedPassesChunksThrough | lib/transform.js:29-31 | a run of chunks pushes every chunk, null ones included, in order when passing through, and none otherwise |
| Stream.CallbackAsWritten | lib/transform.js:41-54 | models the parse callback as written; stated by Stream.FailedWalkFinishesTwice |
| Stream.Callback | lib/transform.js:41-54 | models the parse callback with the error branch returning; stated by Stream.CallbackFinishesOnce and Stream.CallbackPushesOnSuccess |
| Stream.FlushAsWritten | lib/transform.js:40-55 | models `_flush` over `parse` as written; stated by Stream.FailedWalkFinishesTwice, Stream.LessErrorNeverFinishes and Stream.RenderErrorNeverFinishes |
| Stream.Flush | lib/transform.js:40-55 | models `_flush` over the corrected `parse` with the error branch returning; stated by Stream.FlushAdds and Stream.FlushFinishesOnce |
| Stream.FinishAdds | lib/transform.js:41-54 | with no misnamed error and no escaped rendering error, a flush adds the walker's events and then the callback's signals |
| Stream.FlushAdds | lib/transform.js:40-55 | the corrected flush always reaches the callback, after the walker's events |
| Stream.CallbackFinishesOnce | lib/transform.js:41-54 | the corrected callback completes and finishes exactly once, `done` last; an error is emitted right before `complete`; on success it pushes the compiled CSS before `complete` when compiling, and otherwise only completes and finishes |
| Stream.CallbackPushesOnSuccess | lib/transform.js:48-50 | the corrected callback pushes the compiled CSS exactly when compiling and successful; nothing escapes |
| Stream.FlushFinishesOnce | lib/transform.js:40-55 | the corrected flush completes and finishes exactly once, `done` last, whatever the parser reports |
| Stream.UnnamedThrows | lib/index.js:412-427 | a root whose rule list is empty throws in `_getFilename` before any event |
| Stream.FailedWalkFinishesTwice | lib/transform.js:42-53 | as written, a failed walk emits `error`, `complete`, `done`, then `complete`, `done` again, or throws at `res.css` when compiling |
| Stream.UnnamedRootFinishesTwice | lib/transform.js:42-53 | as written and not compiling, such a tree completes and finishes the stream twice |
| Stream.LessErrorNeverFinishes | lib/index.js:62-65 | as written, a less error neither completes nor finishes the stream; corrected, it emits `error`, `complete`, `done` |
| Stream.RenderErrorNeverFinishes | lib/index.js:90-102 | as written, a tree that walks cleanly but fails to render ends the flush with the escaped exception, and the stream never completes or finishes |
| Stream.RenderErrorReported | lib/index.js:90-102 | corrected, the same rendering error ends the flush with `error`, `complete`, `done` |

## Left out

- Floating-point numbers: leaf values are strings or integers, so `String(x)` of a non-integral number is not modelled.
- Js.Render: prints every integer in plain decimal. JavaScript prints integral numbers of magnitude 10^21 or more in exponent form (`1e+21`), and holds integers beyond 2^53 only approximately; the model does not bound `Num` to the range where the two agree.
- Js.Digits: the same limit; it is the plain decimal printer for every natural number.
- Objects other than strings and numbers in leaf `value`/`name`: a truthy object is reported as is by the source. The model has no such leaf.
- Console output: `console.error` and `console.log` in the walker, in `register`, and in the `output` option; `chalk` colouring. They print only.
- The Debug task's listener bodies (`onRoot` … `onVariable`): they print only. Their identities are kept, so `on`/`off` can be compared.
- `bindHandlers`: its effect, a stable bound identity per task and listener, is modelled as the `Handler` value.
- `toCSS` and `less.ParseTree`: the rendering is opaque, given as the parser's outcome (compiled CSS or the error it throws), and `_processVariable` takes the value's rendering as given; a `toCSS()` in `_processVariable` that throws is not modelled.
- Node's behaviour when `'error'` is emitted with no listener attached: this would throw, and `done` being called twice may also raise in the stream machinery. Both are outside the code shown here. The model records the signals the code issues.
- The stream internals: buffering, back-pressure, `enc`, and `Buffer`-to-string conversion. Chunks are `Option<string>`; a `null` chunk adds nothing to the input but is still pushed.
- Integer-like keys in `Object.keys(imports.files)`: JavaScript lists them before the other keys. The model takes the files in the order the parser reports them.
- Field shapes of the syntax tree: a leaf's `type` is always a string, so `leaf.type.toLowerCase()` cannot throw; a selector's `elements` and a mixin call's `arguments` are always arrays, and a mixin call always has a `selector`; and an expression's `value` is an array or missing, never a string to index. The model's outcomes agree with the code on trees of these shapes, the shapes the walker's field accesses assume; other shapes cannot be written in the model.
- Option truthiness of non-boolean values (`streaming: 'yes'`, for example): options are booleans.

## Findings

| source | as written | input that shows it | evidently intended | confidence | as-written member | corrected member |
|---|---|---|---|---|---|---|
| lib/transform.js:42-46 | the error branch of the parse callback does not `return`, so it falls through to the success path | any tree whose walk throws, for example a root whose `rules` array is empty (`Stream.Unnamed`) | report the error, complete and finish once | not executed | Stream.FailedWalkFinishesTwice, Stream.UnnamedRootFinishesTwice | Stream.Flush with Stream.FlushFinishesOnce and Stream.CallbackFinishesOnce |
| lib/index.js:62-65 | a less error is passed to `emit` as the event name, and the callback is never called | a parser that reports any error (`less` returning `LessFailed(e)`) | pass the error to the callback, so that the stream reports it and finishes | not executed | Conformance.ParseAsWritten with Conformance.LessErrorNeverReachesCallback and Stream.LessErrorNeverFinishes | Conformance.Parse with Stream.FlushFinishesOnce |
| lib/index.js:90-102 | the parse tree is rendered outside any `try`, so a rendering error escapes the parser's callback and the callback is never called | a stylesheet that parses but fails to evaluate, such as `a { color: @missing; }` (`less` returning `LessParsed(Named, [], Failure(e))`) | pass the rendering error to the callback like a walk error, so that the stream reports it and finishes | not executed | Stream.RenderErrorNeverFinishes over Conformance.ParseAsWritten | Conformance.Parse with Stream.RenderErrorReported and Stream.FlushFinishesOnce |
